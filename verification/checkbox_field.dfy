/**
 * The checkbox group (`CheckboxField`): defaults, a validator over the list
 * of checked options, property schema, the data-entry view that keeps the
 * checked list, and the apply step that also clears the selection.
 */
module CheckboxFieldElement {
  import opened Wrappers
  import opened ElementTypes
  import opened DesignerContext

  const DefaultAttributes: Attributes := CheckboxAttrs("Checkbox field", "Helper text", false, [])

  /** `construct(id)`: the given id, the `CheckboxField` tag, no options, not required. */
  function Construct(id: string): (e: FormElementInstance)
    ensures e.id == id && e.kind == CheckboxField
    ensures e.extraAttributes.CheckboxAttrs?
    ensures e.extraAttributes.labelText == "Checkbox field" && e.extraAttributes.helperText == "Helper text"
    ensures !e.extraAttributes.required && e.extraAttributes.options == []
  {
    FormElementInstance(id, CheckboxField, DefaultAttributes)
  }

  /** `validate`: a required group needs at least one checked option; an optional one takes anything. */
  function Validate(element: FormElementInstance, value: Value): (valid: bool)
    ensures element.extraAttributes.required ==> (valid <==> value.Length() > 0)
    ensures !element.extraAttributes.required ==> valid
  {
    if element.extraAttributes.required then value.Length() > 0 else true
  }

  /** The property schema: label 2..50, helper text up to 200, options any list of strings. */
  predicate SchemaValid(values: Attributes): (ok: bool)
    ensures ok ==> values.CheckboxAttrs? && 1 <= |values.labelText| <= 50 && |values.helperText| <= 200
  {
    && values.CheckboxAttrs?
    && 2 <= Utf16Length(values.labelText) <= 50
    && Utf16Length(values.helperText) <= 200
  }

  lemma DefaultsSatisfySchema()
    ensures SchemaValid(DefaultAttributes)
  {
  }

  /** Checking `item`: it goes to the end of the checked list. */
  function Checked(selected: seq<string>, item: string): (r: seq<string>)
    ensures |r| == |selected| + 1 && r[|selected|] == item
    ensures forall k :: 0 <= k < |selected| ==> r[k] == selected[k]
  {
    selected + [item]
  }

  /** Unchecking `item`: every occurrence goes, every other entry stays. */
  function Unchecked(selected: seq<string>, item: string): (r: seq<string>)
    ensures item !in r
    ensures forall x :: x != item ==> multiset(r)[x] == multiset(selected)[x]
    ensures item !in selected ==> r == selected
  {
    if selected == [] then []
    else
      assert selected == [selected[0]] + selected[1..];
      if selected[0] == item then Unchecked(selected[1..], item)
      else [selected[0]] + Unchecked(selected[1..], item)
  }

  /** Unchecking keeps the order of the remaining entries: it works piecewise on a split list. */
  lemma {:induction false} UncheckedSplits(a: seq<string>, b: seq<string>, item: string)
    ensures Unchecked(a + b, item) == Unchecked(a, item) + Unchecked(b, item)
  {
    if a == [] {
      assert a + b == b;
    } else {
      assert (a + b)[1..] == a[1..] + b;
      UncheckedSplits(a[1..], b, item);
    }
  }

  /** Checking an unchecked option and unchecking it again gives back the list. */
  lemma CheckThenUncheck(selected: seq<string>, item: string)
    requires item !in selected
    ensures Unchecked(Checked(selected, item), item) == selected
  {
    UncheckedSplits(selected, [item], item);
    assert Unchecked([item], item) == [];
  }

  /**
   * `applyChanges`: id and tag kept, the four attributes replaced, then the
   * selection is cleared.
   */
  method ApplyChanges(designer: DesignerState, element: FormElementInstance, values: Attributes)
    requires element.kind == CheckboxField
    requires SchemaValid(values)
    modifies designer
    ensures designer.elements == ReplaceId(old(designer.elements), element.id, element.(extraAttributes := values))
    ensures designer.selected == None
  {
    designer.UpdateElement(element.id, element.(extraAttributes := values));
    designer.SetSelectedElement(None);
  }

  /** The "Save" button: applies only schema-valid values. */
  method SubmitProperties(designer: DesignerState, element: FormElementInstance, values: Attributes)
    returns (applied: bool)
    requires element.kind == CheckboxField
    modifies designer
    ensures applied == SchemaValid(values)
    ensures applied ==> designer.elements == ReplaceId(old(designer.elements), element.id, element.(extraAttributes := values))
    ensures applied ==> designer.selected == None
    ensures !applied ==> designer.elements == old(designer.elements) && designer.selected == old(designer.selected)
  {
    applied := SchemaValid(values);
    if applied {
      ApplyChanges(designer, element, values);
    }
  }

  /**
   * The data-entry view of one checkbox group. It always starts with nothing
   * checked, and after every change of the checked list (mounting included)
   * an effect re-validates the list and reports all of it.
   */
  class FormComponent {
    const element: FormElementInstance
    const submitValue: ValueStore?
    var value: seq<string>
    var error: bool

    /** Mounting, followed by the first run of the reporting effect. */
    constructor (element: FormElementInstance, submitValue: ValueStore?, isInvalid: bool)
      modifies submitValue
      ensures this.element == element && this.submitValue == submitValue
      ensures value == []
      ensures submitValue == null ==> error == isInvalid
      ensures submitValue != null ==> error == !Validate(element, Strs([]))
      ensures submitValue != null ==> submitValue.values == old(submitValue.values)[element.id := Strs([])]
    {
      this.element := element;
      this.submitValue := submitValue;
      value := [];
      error := isInvalid;
      new;
      ReportSelection();
    }

    /** The effect on `value`: re-validate the whole list and report it under the element's id. */
    method ReportSelection()
      modifies this, submitValue
      ensures value == old(value)
      ensures submitValue == null ==> error == old(error)
      ensures submitValue != null ==> error == !Validate(element, Strs(value))
      ensures submitValue != null ==> submitValue.values == old(submitValue.values)[element.id := Strs(value)]
    {
      if submitValue == null {
        return;
      }
      var valid := Validate(element, Strs(value));
      error := !valid;
      submitValue.SubmitValue(element.id, Strs(value));
    }

    /** Ticking or clearing the box of `item`, then the reporting effect. */
    method OnCheckedChange(item: string, checked: bool)
      modifies this, submitValue
      ensures value == if checked then Checked(old(value), item) else Unchecked(old(value), item)
      ensures submitValue == null ==> error == old(error)
      ensures submitValue != null ==> error == !Validate(element, Strs(value))
      ensures submitValue != null ==> submitValue.values == old(submitValue.values)[element.id := Strs(value)]
    {
      if checked {
        value := Checked(value, item);
      } else {
        value := Unchecked(value, item);
      }
      ReportSelection();
    }
  }
}
