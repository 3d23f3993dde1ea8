/**
 * The single-line text field (`TextField`): defaults, validator, property
 * schema, its data-entry view and the property editor's apply step.
 */
module TextFieldElement {
  import opened Wrappers
  import opened ElementTypes
  import opened DesignerContext

  const DefaultAttributes: Attributes := TextAttrs("Text Field", "Helper Text", false, "Value Here...")

  /** `construct(id)`: the given id, the `TextField` tag and the fixed defaults. */
  function Construct(id: string): (e: FormElementInstance)
    ensures e.id == id && e.kind == TextField
    ensures e.extraAttributes.TextAttrs?
    ensures e.extraAttributes.labelText == "Text Field" && e.extraAttributes.helperText == "Helper Text"
    ensures !e.extraAttributes.required && e.extraAttributes.placeHolder == "Value Here..."
  {
    FormElementInstance(id, TextField, DefaultAttributes)
  }

  /** `validate`: a required field needs a non-empty value; an optional one takes anything. */
  function Validate(element: FormElementInstance, value: Value): (valid: bool)
    ensures element.extraAttributes.required ==> (valid <==> value.Length() > 0)
    ensures !element.extraAttributes.required ==> valid
  {
    if element.extraAttributes.required then value.Length() > 0 else true
  }

  /** A freshly constructed text field is optional, so it accepts every value. */
  lemma ConstructedAcceptsAll(id: string, value: Value)
    ensures Validate(Construct(id), value)
  {
  }

  /** The property schema: label of 2..50 characters, helper text up to 200, placeholder up to 50. */
  predicate SchemaValid(values: Attributes): (ok: bool)
    ensures ok ==> values.TextAttrs? && 1 <= |values.labelText| <= 50 && |values.helperText| <= 200
  {
    && values.TextAttrs?
    && 2 <= Utf16Length(values.labelText) <= 50
    && Utf16Length(values.helperText) <= 200
    && Utf16Length(values.placeHolder) <= 50
  }

  /** The defaults pass the property schema. */
  lemma DefaultsSatisfySchema()
    ensures SchemaValid(DefaultAttributes)
  {
  }

  /**
   * What a blur does to the reported values: the typed text is recorded
   * under the element's id only when it validates; otherwise the map is kept.
   */
  function BlurRecord(element: FormElementInstance, values: map<string, Value>, text: string): (r: map<string, Value>)
    ensures Validate(element, Str(text)) ==> r == values[element.id := Str(text)]
    ensures !Validate(element, Str(text)) ==> r == values
  {
    if Validate(element, Str(text)) then values[element.id := Str(text)] else values
  }

  /**
   * The intended blur: the text in the input is always reported, so the
   * recorded value follows what the user left in the field, valid or not;
   * the error flag still shows whether it validates.
   */
  function BlurRecordCorrected(element: FormElementInstance, values: map<string, Value>, text: string): (r: map<string, Value>)
    ensures element.id in r && r[element.id] == Str(text)
    ensures forall k :: k != element.id ==> (k in r <==> k in values) && (k in values ==> r[k] == values[k])
  {
    values[element.id := Str(text)]
  }

  /**
   * `applyChanges`: the element keeps its id and tag, its attributes are
   * replaced wholesale, and the selection is left as it was. The property
   * form only calls it with values its schema accepts.
   */
  method ApplyChanges(designer: DesignerState, element: FormElementInstance, values: Attributes)
    requires element.kind == TextField
    requires SchemaValid(values)
    modifies designer
    ensures designer.elements == ReplaceId(old(designer.elements), element.id, element.(extraAttributes := values))
    ensures designer.selected == old(designer.selected)
  {
    designer.UpdateElement(element.id, element.(extraAttributes := values));
  }

  /**
   * The property form's blur handler (`form.handleSubmit(applyChanges)`):
   * applies the edited values when the schema accepts them, else changes nothing.
   */
  method SubmitProperties(designer: DesignerState, element: FormElementInstance, values: Attributes)
    returns (applied: bool)
    requires element.kind == TextField
    modifies designer
    ensures applied == SchemaValid(values)
    ensures applied ==> designer.elements == ReplaceId(old(designer.elements), element.id, element.(extraAttributes := values))
    ensures !applied ==> designer.elements == old(designer.elements)
    ensures designer.selected == old(designer.selected)
  {
    applied := SchemaValid(values);
    if applied {
      ApplyChanges(designer, element, values);
    }
  }

  /** The data-entry view of one text field. */
  class FormComponent {
    const element: FormElementInstance
    /** The form's value sink; absent when the view is only previewed. */
    const submitValue: ValueStore?
    var value: string
    var error: bool

    /** Mounting: the recorded value (or "") and the error flag the form passes in. */
    constructor (element: FormElementInstance, submitValue: ValueStore?, isInvalid: bool, defaultValue: Option<string>)
      ensures this.element == element && this.submitValue == submitValue
      ensures value == (if defaultValue.Some? then defaultValue.value else "")
      ensures error == isInvalid
    {
      this.element := element;
      this.submitValue := submitValue;
      value := if defaultValue.Some? then defaultValue.value else "";
      error := isInvalid;
    }

    /** Typing only updates the shown text. */
    method OnChange(text: string)
      modifies this
      ensures value == text && error == old(error)
    {
      value := text;
    }

    /** Leaving the input: flags the error and reports the shown text only when it validates. */
    method OnBlur()
      modifies this, submitValue
      ensures value == old(value)
      ensures submitValue == null ==> error == old(error)
      ensures submitValue != null ==> error == !Validate(element, Str(value))
      ensures submitValue != null ==> submitValue.values == BlurRecord(element, old(submitValue.values), value)
    {
      if submitValue == null {
        return;
      }
      var valid := Validate(element, Str(value));
      error := !valid;
      if !valid {
        return;
      }
      submitValue.SubmitValue(element.id, Str(value));
    }
  }
}
