/** StringEnumAttribute: a validation attribute that accepts a string property only when it
  * equals, ignoring case, one of a fixed list of allowed values. */
module StringEnum {
  import opened Wrappers
  import opened Text

  /** What the validation framework hands to IsValid: null, a string, or any other object. */
  datatype Value = Null | Str(s: string) | NonString

  datatype ValidationResult = Success | Failure(message: string)

  /** The attribute after construction: its allowed values and its ErrorMessage. */
  datatype StringEnumAttribute = StringEnumAttribute(allowedValues: seq<string>, errorMessage: string)

  datatype ConstructorError = ArgumentNull(paramName: string)

  const NotAString: string := "Value must be a string."
  const DefaultMessagePrefix: string := "Invalid value. Allowed values are: "

  /** The constructor: a null array is refused; otherwise the default message lists the
    * allowed values separated by ", ". */
  function Create(allowedValues: Option<seq<string>>): (r: Result<StringEnumAttribute, ConstructorError>)
    ensures allowedValues.None? <==> r.Err?
    ensures r.Err? ==> r.error == ArgumentNull("allowedValues")
    ensures r.Ok? ==> r.value.allowedValues == allowedValues.value
    ensures r.Ok? ==> |DefaultMessagePrefix| <= |r.value.errorMessage|
    ensures r.Ok? ==> r.value.errorMessage[..|DefaultMessagePrefix|] == DefaultMessagePrefix
    ensures r.Ok? ==> r.value.errorMessage[|DefaultMessagePrefix|..] == Join(allowedValues.value, ", ")
  {
    match allowedValues
    case None => Err(ArgumentNull("allowedValues"))
    case Some(values) =>
      var message := DefaultMessagePrefix + Join(values, ", ");
      assert message[..|DefaultMessagePrefix|] == DefaultMessagePrefix;
      Ok(StringEnumAttribute(values, message))
  }

  /** The attribute as written on a property with a named ErrorMessage argument, which
    * replaces the constructor's message. */
  function WithErrorMessage(attribute: StringEnumAttribute, message: string): (r: StringEnumAttribute)
    ensures r.allowedValues == attribute.allowedValues && r.errorMessage == message
  {
    attribute.(errorMessage := message)
  }

  predicate Allowed(attribute: StringEnumAttribute, s: string)
  {
    exists i :: 0 <= i < |attribute.allowedValues| && EqualsIgnoreCase(attribute.allowedValues[i], s)
  }

  /** IsValid: null passes, a non-string fails with a fixed message, and a string passes
    * exactly when some allowed value equals it ignoring case. */
  function IsValid(attribute: StringEnumAttribute, value: Value): (r: ValidationResult)
    ensures value.Null? ==> r == Success
    ensures value.NonString? ==> r == Failure(NotAString)
    ensures value.Str? ==> (r == Success <==> Allowed(attribute, value.s))
    ensures value.Str? && r.Failure? ==> r.message == attribute.errorMessage
  {
    match value
    case Null => Success
    case NonString => Failure(NotAString)
    case Str(s) => if ContainsIgnoreCase(attribute.allowedValues, s) then Success else Failure(attribute.errorMessage)
  }

  /** Enumerable.Contains with StringComparer.OrdinalIgnoreCase. */
  function ContainsIgnoreCase(values: seq<string>, s: string): (r: bool)
    ensures r <==> exists i :: 0 <= i < |values| && EqualsIgnoreCase(values[i], s)
  {
    if values == [] then false
    else if EqualsIgnoreCase(values[0], s) then true
    else
      var rest := ContainsIgnoreCase(values[1..], s);
      assert rest <==> exists i :: 1 <= i < |values| && EqualsIgnoreCase(values[i], s) by {
        forall i | 1 <= i < |values| ensures values[i] == values[1..][i - 1] {}
        if rest {
          var j :| 0 <= j < |values[1..]| && EqualsIgnoreCase(values[1..][j], s);
          assert EqualsIgnoreCase(values[j + 1], s);
        }
      }
      rest
  }

  /** Whether a value is accepted depends only on its case-folded spelling. */
  lemma IsValidIgnoresCase(attribute: StringEnumAttribute, a: string, b: string)
    requires EqualsIgnoreCase(a, b)
    ensures IsValid(attribute, Str(a)) == IsValid(attribute, Str(b))
  {
  }
}
