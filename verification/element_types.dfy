/**
 * The shapes shared by the whole form engine: the closed set of element type
 * tags, the per-type attribute records, an element instance, the value a
 * field reports, and the sink that field views report values into.
 */
module ElementTypes {
  import opened Wrappers

  /** The closed set of element kinds; four of them are layout-only. */
  datatype ElementsType =
    | TextField
    | TitleField
    | SubTitleField
    | SeparatorField
    | SpacerField
    | NumberField
    | TextAreaField
    | DateField
    | SelectField
    | CheckboxField

  /** Every tag, in declaration order. */
  const AllTypes: seq<ElementsType> := [
    TextField, TitleField, SubTitleField, SeparatorField, SpacerField,
    NumberField, TextAreaField, DateField, SelectField, CheckboxField
  ]

  predicate IsLayout(t: ElementsType) {
    t.TitleField? || t.SubTitleField? || t.SeparatorField? || t.SpacerField?
  }

  /** The tag set is closed: exactly ten distinct names, four of them layout kinds. */
  lemma TagSetClosed()
    ensures |AllTypes| == 10
    ensures forall t: ElementsType :: t in AllTypes
    ensures forall i, j :: 0 <= i < j < |AllTypes| ==> AllTypes[i] != AllTypes[j]
    ensures |set t | t in AllTypes && IsLayout(t)| == 4
  {
    assert forall t: ElementsType :: t in AllTypes by {
      forall t: ElementsType ensures t in AllTypes {
        match t
        case TextField => assert AllTypes[0] == t;
        case TitleField => assert AllTypes[1] == t;
        case SubTitleField => assert AllTypes[2] == t;
        case SeparatorField => assert AllTypes[3] == t;
        case SpacerField => assert AllTypes[4] == t;
        case NumberField => assert AllTypes[5] == t;
        case TextAreaField => assert AllTypes[6] == t;
        case DateField => assert AllTypes[7] == t;
        case SelectField => assert AllTypes[8] == t;
        case CheckboxField => assert AllTypes[9] == t;
      }
    }
    assert |set t | t in AllTypes && IsLayout(t)| == 4 by {
      var layout := set t | t in AllTypes && IsLayout(t);
      assert layout == {TitleField, SubTitleField, SeparatorField, SpacerField};
    }
  }

  /**
   * JavaScript's `.length` of a string, which zod's `min` and `max` measure:
   * the number of UTF-16 code units. A character above U+FFFF is a surrogate
   * pair and counts twice.
   */
  function Utf16Length(s: string): (n: nat)
    ensures |s| <= n <= 2 * |s|
  {
    if s == [] then 0
    else (if s[0] as int >= 0x1_0000 then 2 else 1) + Utf16Length(s[1..])
  }

  /** Code-unit lengths add up over concatenation. */
  lemma {:induction false} Utf16LengthConcat(a: string, b: string)
    ensures Utf16Length(a + b) == Utf16Length(a) + Utf16Length(b)
  {
    if a != [] {
      assert (a + b)[1..] == a[1..] + b;
      Utf16LengthConcat(a[1..], b);
    } else {
      assert a + b == b;
    }
  }

  /** A string's code-unit length is its character count exactly when it has no character above U+FFFF. */
  lemma {:induction false} Utf16LengthIsSizeIffBmp(s: string)
    ensures Utf16Length(s) == |s| <==> forall i :: 0 <= i < |s| ==> s[i] as int < 0x1_0000
  {
    if s != [] {
      Utf16LengthIsSizeIffBmp(s[1..]);
      assert forall i :: 1 <= i < |s| ==> s[i] == s[1..][i - 1];
    }
  }

  /** One character above U+FFFF is two code units, so it alone meets a `min(2)`. */
  lemma AstralCharCountsTwice(c: char)
    requires c as int >= 0x1_0000
    ensures Utf16Length([c]) == 2
  {
  }

  /**
   * A value reported by a field: a single string, or a list of strings for
   * the checkbox group. Length is JavaScript's `.length` of either: UTF-16
   * code units of a string, entries of a list.
   */
  datatype Value = Str(text: string) | Strs(items: seq<string>) {
    function Length(): nat {
      match this
      case Str(t) => Utf16Length(t)
      case Strs(xs) => |xs|
    }
  }

  /**
   * The type-specific attribute record (`extraAttributes`), one variant per
   * field kind whose file is part of this model. Numbers are integers here;
   * `labelText` is the source's `label` (a reserved word in Dafny).
   */
  datatype Attributes =
    | TextAttrs(labelText: string, helperText: string, required: bool, placeHolder: string)
    | SelectAttrs(labelText: string, helperText: string, required: bool, placeHolder: string,
                  options: seq<string>)
    | CheckboxAttrs(labelText: string, helperText: string, required: bool, options: seq<string>)
    | NumberAttrs(labelText: string, helperText: string, required: bool, placeHolder: string,
                  max: Option<int>, min: Option<int>)

  /** An element of a form: an id, a type tag and its attribute record. */
  datatype FormElementInstance = FormElementInstance(id: string, kind: ElementsType, extraAttributes: Attributes)

  /** The attribute record is the variant of the element's own kind. */
  predicate WellFormed(e: FormElementInstance) {
    match e.kind
    case TextField => e.extraAttributes.TextAttrs?
    case SelectField => e.extraAttributes.SelectAttrs?
    case CheckboxField => e.extraAttributes.CheckboxAttrs?
    case NumberField => e.extraAttributes.NumberAttrs?
    case _ => false
  }

  /**
   * The value map a filled-in form reports into (the target of the
   * `SubmitFunction` callback), keyed by element id.
   */
  class ValueStore {
    var values: map<string, Value>

    constructor ()
      ensures values == map[]
    {
      values := map[];
    }

    /** Records `value` under `key`, overwriting only that key. */
    method SubmitValue(key: string, value: Value)
      modifies this
      ensures values == old(values)[key := value]
      ensures key in values && values[key] == value
      ensures forall k :: k != key ==> (k in values <==> k in old(values))
      ensures forall k :: k != key && k in values ==> values[k] == old(values)[k]
    {
      values := values[key := value];
    }
  }
}
