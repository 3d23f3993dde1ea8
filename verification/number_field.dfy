/**
 * The number field (`NumberField`): defaults with no bounds, a validator that
 * ignores the bounds, property schema, data-entry view and apply step.
 */
module NumberFieldElement {
  import opened Wrappers
  import opened ElementTypes
  import opened DesignerContext

  const DefaultAttributes: Attributes := NumberAttrs("Number field", "Helper text", false, "0", None, None)

  /** `construct(id)`: the given id, the `NumberField` tag, placeholder "0", no min and no max. */
  function Construct(id: string): (e: FormElementInstance)
    ensures e.id == id && e.kind == NumberField
    ensures e.extraAttributes.NumberAttrs?
    ensures e.extraAttributes.labelText == "Number field" && e.extraAttributes.helperText == "Helper text"
    ensures !e.extraAttributes.required && e.extraAttributes.placeHolder == "0"
    ensures e.extraAttributes.max.None? && e.extraAttributes.min.None?
  {
    FormElementInstance(id, NumberField, DefaultAttributes)
  }

  /** `validate`: only `required` and the length matter; min and max are never consulted. */
  function Validate(element: FormElementInstance, value: Value): (valid: bool)
    ensures element.extraAttributes.required ==> (valid <==> value.Length() > 0)
    ensures !element.extraAttributes.required ==> valid
  {
    if element.extraAttributes.required then value.Length() > 0 else true
  }

  /** Bounds never change the verdict: two elements that differ only in min and max agree. */
  lemma ValidateIgnoresBounds(element: FormElementInstance, max: Option<int>, min: Option<int>, value: Value)
    requires element.extraAttributes.NumberAttrs?
    ensures Validate(element, value) == Validate(element.(extraAttributes := element.extraAttributes.(max := max, min := min)), value)
  {
  }

  /** The property schema: label 2..50, helper text up to 200, placeholder up to 50, optional min and max. */
  predicate SchemaValid(values: Attributes): (ok: bool)
    ensures ok ==> values.NumberAttrs? && 1 <= |values.labelText| <= 50 && |values.helperText| <= 200
  {
    && values.NumberAttrs?
    && 2 <= Utf16Length(values.labelText) <= 50
    && Utf16Length(values.helperText) <= 200
    && Utf16Length(values.placeHolder) <= 50
  }

  lemma DefaultsSatisfySchema()
    ensures SchemaValid(DefaultAttributes)
  {
  }

  /** What a blur does to the reported values: the text is recorded only when it validates. */
  function BlurRecord(element: FormElementInstance, values: map<string, Value>, text: string): (r: map<string, Value>)
    ensures Validate(element, Str(text)) ==> r == values[element.id := Str(text)]
    ensures !Validate(element, Str(text)) ==> r == values
  {
    if Validate(element, Str(text)) then values[element.id := Str(text)] else values
  }

  /**
   * `applyChanges`: id and tag kept, all six attributes (optional min and max
   * included) replaced, the selection untouched.
   */
  method ApplyChanges(designer: DesignerState, element: FormElementInstance, values: Attributes)
    requires element.kind == NumberField
    requires SchemaValid(values)
    modifies designer
    ensures designer.elements == ReplaceId(old(designer.elements), element.id, element.(extraAttributes := values))
    ensures designer.selected == old(designer.selected)
  {
    designer.UpdateElement(element.id, element.(extraAttributes := values));
  }

  /** The property form's blur handler: applies only schema-valid values. */
  method SubmitProperties(designer: DesignerState, element: FormElementInstance, values: Attributes)
    returns (applied: bool)
    requires element.kind == NumberField
    modifies designer
    ensures applied == SchemaValid(values)
    ensures applied ==> designer.elements == ReplaceId(old(designer.elements), element.id, element.(extraAttributes := values))
    ensures !applied ==> designer.elements == old(designer.elements)
    ensures designer.selected == old(designer.selected)
  {
    applied := SchemaValid(values);
    if applied {
      ApplyChanges(designer, element, values);
    }
  }

  /** The data-entry view of one number field. */
  class FormComponent {
    const element: FormElementInstance
    const submitValue: ValueStore?
    var value: string
    var error: bool

    constructor (element: FormElementInstance, submitValue: ValueStore?, isInvalid: bool, defaultValue: Option<string>)
      ensures this.element == element && this.submitValue == submitValue
      ensures value == (if defaultValue.Some? then defaultValue.value else "")
      ensures error == isInvalid
    {
      this.element := element;
      this.submitValue := submitValue;
      value := if defaultValue.Some? then defaultValue.value else "";
      error := isInvalid;
    }

    method OnChange(text: string)
      modifies this
      ensures value == text && error == old(error)
    {
      value := text;
    }

    /** Leaving the input: flags the error and reports the shown text only when it validates. */
    method OnBlur()
      modifies this, submitValue
      ensures value == old(value)
      ensures submitValue == null ==> error == old(error)
      ensures submitValue != null ==> error == !Validate(element, Str(value))
      ensures submitValue != null ==> submitValue.values == BlurRecord(element, old(submitValue.values), value)
    {
      if submitValue == null {
        return;
      }
      var valid := Validate(element, Str(value));
      error := !valid;
      if !valid {
        return;
      }
      submitValue.SubmitValue(element.id, Str(value));
    }
  }
}
