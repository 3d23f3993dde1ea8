/**
 * The public form (`FormSubmit`): a value map filled in by the fields as the
 * visitor leaves them, one validation pass over all fields that collects the
 * failing ids, an all-or-nothing submission, and a terminal thank-you view.
 */
module FormSubmit {
  import opened Wrappers
  import opened ElementTypes
  import opened DesignerContext
  import opened FormElements
  import TextFieldElement

  /** `formValues[id] || ''`: a missing entry, like the empty string, reads as the empty string. */
  function EffectiveValue(values: map<string, Value>, id: string): (v: Value)
    ensures id !in values ==> v == Str("")
    ensures id in values && values[id] != Str("") ==> v == values[id]
    ensures v.Length() == if id in values then values[id].Length() else 0
  {
    if id in values && values[id] != Str("") then values[id] else Str("")
  }

  /** Every field of the form dispatches to a modelled registry entry. */
  predicate AllModelled(content: Elements) {
    forall i :: 0 <= i < |content| ==> Modelled(content[i].kind)
  }

  /** The ids of the fields whose validator rejects their effective value. */
  function Failing(content: Elements, values: map<string, Value>): (ids: set<string>)
    requires AllModelled(content)
    ensures forall id :: id in ids <==>
      exists i :: 0 <= i < |content| && content[i].id == id && !Validate(content[i], EffectiveValue(values, id))
  {
    if |content| == 0 then {}
    else
      var last := content[|content| - 1];
      var rest := Failing(content[..|content| - 1], values);
      assert forall i :: 0 <= i < |content| - 1 ==> content[..|content| - 1][i] == content[i];
      if Validate(last, EffectiveValue(values, last.id)) then rest else rest + {last.id}
  }

  /** Only a required field left empty fails. */
  lemma FailingAreRequiredAndEmpty(content: Elements, values: map<string, Value>, id: string)
    requires AllModelled(content)
    requires id in Failing(content, values)
    ensures exists i :: 0 <= i < |content| && content[i].id == id && content[i].extraAttributes.required
    ensures id !in values || values[id].Length() == 0
  {
  }

  /**
   * Recording a non-empty value for `k` clears `k` from the failing ids and
   * leaves every other verdict as it was.
   */
  lemma {:induction false} RecordingNonEmptyClears(content: Elements, values: map<string, Value>, k: string, v: Value)
    requires AllModelled(content)
    requires v.Length() > 0
    ensures Failing(content, values[k := v]) == Failing(content, values) - {k}
  {
    if |content| > 0 {
      var init := content[..|content| - 1];
      assert AllModelled(init) by {
        forall i | 0 <= i < |init| ensures Modelled(init[i].kind) {
          assert init[i] == content[i];
        }
      }
      RecordingNonEmptyClears(init, values, k, v);
    }
  }

  /** The external `SubmitForm(formUrl, values)` call. */
  datatype SubmitCall = SubmitCall(formUrl: string, values: map<string, Value>)

  /** One field as rendered: its instance, its error flag and the value it starts from. */
  datatype FieldView = FieldView(element: FormElementInstance, isInvalid: bool, defaultValue: Option<Value>)

  /** What the component renders. */
  datatype FormView = ThankYou | Fields(renderKey: int, fields: seq<FieldView>)

  class FormSubmitState {
    const formUrl: string
    const content: Elements
    /** `formValues`: shared with the fields, which report into it. */
    const formValues: ValueStore
    /** `formErrors`: the keys of the error map (its values are always `true`). */
    var formErrors: set<string>
    var renderKey: int
    var submitted: bool

    /** Mounting the form: no values, no errors, not submitted; `now` is the clock reading. */
    constructor (formUrl: string, content: Elements, now: int)
      ensures this.formUrl == formUrl && this.content == content
      ensures fresh(formValues) && formValues.values == map[]
      ensures formErrors == {} && renderKey == now && !submitted
    {
      this.formUrl := formUrl;
      this.content := content;
      formValues := new ValueStore();
      formErrors := {};
      renderKey := now;
      submitted := false;
    }

    /** `submitValue(key, value)`: overwrites only `key`. */
    method SubmitValue(key: string, value: Value)
      modifies formValues
      ensures formValues.values == old(formValues.values)[key := value]
    {
      formValues.SubmitValue(key, value);
    }

    /**
     * `validateForm`: one pass over the fields adds the id of every failing
     * field to the error set; the form is valid iff the set is then empty.
     */
    method ValidateForm() returns (ok: bool)
      requires AllModelled(content)
      modifies this`formErrors
      ensures formErrors == old(formErrors) + Failing(content, formValues.values)
      ensures ok <==> formErrors == {}
    {
      var i := 0;
      while i < |content|
        invariant 0 <= i <= |content|
        invariant AllModelled(content[..i])
        invariant formErrors == old(formErrors) + Failing(content[..i], formValues.values)
      {
        var field := content[i];
        var actualValue := EffectiveValue(formValues.values, field.id);
        var valid := Validate(field, actualValue);
        if !valid {
          formErrors := formErrors + {field.id};
        }
        assert content[..i + 1][..i] == content[..i];
        i := i + 1;
      }
      assert content[..|content|] == content;
      ok := |formErrors| == 0;
    }

    /**
     * `submitForm`: clears the errors and validates. An invalid form bumps
     * the render key to `now` and calls nothing. A valid one calls the
     * external submit once with the url and the current values; `delivered`
     * says whether that call succeeded, and only then is the form submitted.
     */
    method SubmitForm(delivered: bool, now: int) returns (call: Option<SubmitCall>)
      requires AllModelled(content)
      modifies this
      ensures formErrors == Failing(content, formValues.values)
      ensures call.Some? <==> formErrors == {}
      ensures call.Some? ==> call.value == SubmitCall(formUrl, formValues.values)
      ensures submitted == (old(submitted) || (call.Some? && delivered))
      ensures renderKey == if call.None? then now else old(renderKey)
    {
      formErrors := {};
      var validForm := ValidateForm();
      if !validForm {
        renderKey := now;
        return None;
      }
      call := Some(SubmitCall(formUrl, formValues.values));
      if delivered {
        submitted := true;
      }
    }

    /** The rendered output: the thank-you view once submitted, else every field with its error flag and recorded value. */
    function View(): (v: FormView)
      reads this, formValues
      ensures v == ThankYou <==> submitted
      ensures v.Fields? ==> v.renderKey == renderKey && |v.fields| == |content|
      ensures v.Fields? ==> forall i :: 0 <= i < |content| ==>
        && v.fields[i].element == content[i]
        && (v.fields[i].isInvalid <==> content[i].id in formErrors)
        && (v.fields[i].defaultValue.Some? <==> content[i].id in formValues.values)
        && (content[i].id in formValues.values ==> v.fields[i].defaultValue == Some(formValues.values[content[i].id]))
    {
      if submitted then ThankYou
      else Fields(renderKey, seq(|content|, i requires 0 <= i < |content| reads this, formValues =>
        FieldView(content[i], content[i].id in formErrors,
          if content[i].id in formValues.values then Some(formValues.values[content[i].id]) else None)))
    }
  }

  /**
   * As written, a required text field that the visitor fills in, leaves,
   * then empties and leaves again keeps the first text: the second blur is
   * rejected and not recorded, so the form validates and would submit "abc".
   */
  lemma ErasedRequiredTextIsStale(e: FormElementInstance)
    requires e.kind == TextField && e.extraAttributes.required
    ensures var values := TextFieldElement.BlurRecord(e, TextFieldElement.BlurRecord(e, map[], "abc"), "");
      && values[e.id] == Str("abc")
      && Failing([e], values) == {}
  {
    var values := TextFieldElement.BlurRecord(e, TextFieldElement.BlurRecord(e, map[], "abc"), "");
    assert Validate(e, EffectiveValue(values, e.id));
  }

  /** With the corrected blur, the same steps leave the field empty and the form reports it. */
  lemma ErasedRequiredTextFailsWhenCorrected(e: FormElementInstance)
    requires e.kind == TextField && e.extraAttributes.required
    ensures Failing([e], TextFieldElement.BlurRecordCorrected(e, TextFieldElement.BlurRecordCorrected(e, map[], "abc"), "")) == {e.id}
  {
    var values := TextFieldElement.BlurRecordCorrected(e, TextFieldElement.BlurRecordCorrected(e, map[], "abc"), "");
    assert !Validate(e, EffectiveValue(values, e.id));
  }

  /**
   * With the corrected blur, a field's verdict at submission is the verdict
   * on the text it was last left with, whatever was recorded before.
   */
  lemma CorrectedBlurDecidesVerdict(content: Elements, values: map<string, Value>, e: FormElementInstance, text: string)
    requires AllModelled(content) && UniqueIds(content)
    requires e in content && e.kind == TextField
    ensures e.id in Failing(content, TextFieldElement.BlurRecordCorrected(e, values, text))
        <==> !TextFieldElement.Validate(e, Str(text))
  {
    var after := TextFieldElement.BlurRecordCorrected(e, values, text);
    var j :| 0 <= j < |content| && content[j] == e;
    assert EffectiveValue(after, e.id).Length() == Utf16Length(text);
    if e.id in Failing(content, after) {
      var i :| 0 <= i < |content| && content[i].id == e.id && !Validate(content[i], EffectiveValue(after, e.id));
      assert i == j;
    }
  }
}
