/**
 * The registry (`FormElements`): a constant table from type tag to the
 * behaviour bundle of that field kind. Six tags have an entry; the four
 * layout tags have none. Of the six, the text, select, checkbox and number
 * entries are modelled here; the text-area and date entries live in files
 * that are not part of this model, so dispatching `construct` and `validate`
 * needs one of the four modelled kinds.
 */
module FormElements {
  import opened Wrappers
  import opened ElementTypes
  import TextFieldElement
  import SelectFieldElement
  import CheckboxFieldElement
  import NumberFieldElement

  /** The registry's entries, one per tag that has one. */
  datatype Entry = TextEntry | SelectEntry | TextAreaEntry | CheckboxEntry | NumberEntry | DateEntry

  /** Looking a tag up in the table; layout tags have no entry. */
  function Lookup(t: ElementsType): (r: Option<Entry>)
    ensures r.None? <==> IsLayout(t)
  {
    match t
    case TextField => Some(TextEntry)
    case SelectField => Some(SelectEntry)
    case TextAreaField => Some(TextAreaEntry)
    case CheckboxField => Some(CheckboxEntry)
    case NumberField => Some(NumberEntry)
    case DateField => Some(DateEntry)
    case _ => None
  }

  /** Exactly six tags have an entry, and distinct tags have distinct entries. */
  lemma SixEntries()
    ensures |set t | t in AllTypes && Lookup(t).Some?| == 6
    ensures forall t, u :: Lookup(t).Some? && Lookup(t) == Lookup(u) ==> t == u
  {
    assert (set t | t in AllTypes && Lookup(t).Some?)
        == {TextField, SelectField, TextAreaField, CheckboxField, NumberField, DateField};
  }

  /** The kinds whose registry entry is part of this model. */
  predicate Modelled(t: ElementsType) {
    t.TextField? || t.SelectField? || t.CheckboxField? || t.NumberField?
  }

  /** `FormElements[t].construct(id)`. */
  function Construct(t: ElementsType, id: string): (e: FormElementInstance)
    requires Modelled(t)
    ensures e.id == id && e.kind == t
    ensures !e.extraAttributes.required
    ensures WellFormed(e)
  {
    match t
    case TextField => TextFieldElement.Construct(id)
    case SelectField => SelectFieldElement.Construct(id)
    case CheckboxField => CheckboxFieldElement.Construct(id)
    case NumberField => NumberFieldElement.Construct(id)
  }

  /** `construct` depends on nothing but the id: two constructions differ only in their ids. */
  lemma ConstructOnlyVariesId(t: ElementsType, id1: string, id2: string)
    requires Modelled(t)
    ensures Construct(t, id1).(id := id2) == Construct(t, id2)
  {
  }

  /** `FormElements[element.type].validate(element, value)`: the entry of the element's own tag decides. */
  function Validate(element: FormElementInstance, value: Value): (valid: bool)
    requires Modelled(element.kind)
    ensures valid <==> (!element.extraAttributes.required || value.Length() > 0)
  {
    match element.kind
    case TextField => TextFieldElement.Validate(element, value)
    case SelectField => SelectFieldElement.Validate(element, value)
    case CheckboxField => CheckboxFieldElement.Validate(element, value)
    case NumberField => NumberFieldElement.Validate(element, value)
  }

  /** A field just dropped from the palette accepts every value, the empty default included. */
  lemma ConstructedFieldAcceptsAll(t: ElementsType, id: string, value: Value)
    requires Modelled(t)
    ensures Validate(Construct(t, id), value)
  {
  }
}
