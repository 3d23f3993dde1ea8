/**
 * The single-choice select field (`SelectField`): defaults, validator,
 * property schema, its data-entry view and the property editor's apply step,
 * which also closes the property panel by clearing the selection.
 */
module SelectFieldElement {
  import opened Wrappers
  import opened ElementTypes
  import opened DesignerContext

  const DefaultAttributes: Attributes := SelectAttrs("Select Field", "Helper Text", false, "Value Here...", [])

  /** `construct(id)`: the given id, the `SelectField` tag, no options, not required. */
  function Construct(id: string): (e: FormElementInstance)
    ensures e.id == id && e.kind == SelectField
    ensures e.extraAttributes.SelectAttrs?
    ensures e.extraAttributes.labelText == "Select Field" && e.extraAttributes.helperText == "Helper Text"
    ensures e.extraAttributes.placeHolder == "Value Here..."
    ensures !e.extraAttributes.required && e.extraAttributes.options == []
  {
    FormElementInstance(id, SelectField, DefaultAttributes)
  }

  /** `validate`: a required select needs a non-empty value; an optional one takes anything. */
  function Validate(element: FormElementInstance, value: Value): (valid: bool)
    ensures element.extraAttributes.required ==> (valid <==> value.Length() > 0)
    ensures !element.extraAttributes.required ==> valid
  {
    if element.extraAttributes.required then value.Length() > 0 else true
  }

  /** The property schema: label 2..50, helper text up to 200, placeholder up to 50, options any list. */
  predicate SchemaValid(values: Attributes): (ok: bool)
    ensures ok ==> values.SelectAttrs? && 1 <= |values.labelText| <= 50 && |values.helperText| <= 200
  {
    && values.SelectAttrs?
    && 2 <= Utf16Length(values.labelText) <= 50
    && Utf16Length(values.helperText) <= 200
    && Utf16Length(values.placeHolder) <= 50
  }

  lemma DefaultsSatisfySchema()
    ensures SchemaValid(DefaultAttributes)
  {
  }

  /**
   * `applyChanges`: the element keeps its id and tag, its five attributes
   * are replaced, and then the selection is cleared.
   */
  method ApplyChanges(designer: DesignerState, element: FormElementInstance, values: Attributes)
    requires element.kind == SelectField
    requires SchemaValid(values)
    modifies designer
    ensures designer.elements == ReplaceId(old(designer.elements), element.id, element.(extraAttributes := values))
    ensures designer.selected == None
  {
    designer.UpdateElement(element.id, element.(extraAttributes := values));
    designer.SetSelectedElement(None);
  }

  /** The "Save" button (`form.handleSubmit(applyChanges)`): applies only schema-valid values. */
  method SubmitProperties(designer: DesignerState, element: FormElementInstance, values: Attributes)
    returns (applied: bool)
    requires element.kind == SelectField
    modifies designer
    ensures applied == SchemaValid(values)
    ensures applied ==> designer.elements == ReplaceId(old(designer.elements), element.id, element.(extraAttributes := values))
    ensures applied ==> designer.selected == None
    ensures !applied ==> designer.elements == old(designer.elements) && designer.selected == old(designer.selected)
  {
    applied := SchemaValid(values);
    if applied {
      ApplyChanges(designer, element, values);
    }
  }

  /** The data-entry view of one select field. */
  class FormComponent {
    const element: FormElementInstance
    const submitValue: ValueStore?
    var value: string
    var error: bool

    constructor (element: FormElementInstance, submitValue: ValueStore?, isInvalid: bool, defaultValue: Option<string>)
      ensures this.element == element && this.submitValue == submitValue
      ensures value == (if defaultValue.Some? then defaultValue.value else "")
      ensures error == isInvalid
    {
      this.element := element;
      this.submitValue := submitValue;
      value := if defaultValue.Some? then defaultValue.value else "";
      error := isInvalid;
    }

    /** A new choice is shown and reported even when invalid; the error flag is "not valid". */
    method OnValueChange(choice: string)
      modifies this, submitValue
      ensures value == choice
      ensures submitValue == null ==> error == old(error)
      ensures submitValue != null ==> error == !Validate(element, Str(choice))
      ensures submitValue != null ==> submitValue.values == old(submitValue.values)[element.id := Str(choice)]
    {
      value := choice;
      if submitValue == null {
        return;
      }
      var valid := Validate(element, Str(choice));
      error := !valid;
      submitValue.SubmitValue(element.id, Str(choice));
    }
  }
}
