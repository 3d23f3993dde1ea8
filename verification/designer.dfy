/**
 * Drop resolution in the form designer (`onDragEnd`): a finished drag either
 * adds a new element from the palette (at the end of the canvas, or before or
 * after an element) or moves an existing element next to another one, by
 * removing it and inserting it again at an index computed before the removal.
 */
module Designer {
  import opened Wrappers
  import opened ElementTypes
  import opened DesignerContext
  import FormElements
  import Utils

  /** What is being dragged: a palette button carrying a type, or an element on the canvas. */
  datatype ActiveItem =
    | SidebarButton(buttonType: ElementsType)
    | DesignerElement(elementType: ElementsType, elementId: string)

  /** Where it is dropped: the canvas, or the top or bottom half of an element. */
  datatype OverTarget =
    | DesignerDropArea
    | TopHalf(overType: ElementsType, elementId: string)
    | BottomHalf(overType: ElementsType, elementId: string)

  datatype DragEndEvent = DragEndEvent(active: Option<ActiveItem>, over: Option<OverTarget>)

  /** The outcome of a drop: the new element list, or the "Element not found" error. */
  datatype DropResult = Applied(elements: Elements) | ElementNotFound

  /** A palette button always carries a tag whose registry entry is modelled. */
  predicate PaletteModelled(ev: DragEndEvent) {
    ev.active.Some? && ev.active.value.SidebarButton? ==> FormElements.Modelled(ev.active.value.buttonType)
  }

  /** The insertion index for a drop on an element at `overIndex`: the same slot for the top half, the next for the bottom. */
  function TargetIndex(overIndex: nat, over: OverTarget): nat {
    if over.BottomHalf? then overIndex + 1 else overIndex
  }

  /** The element list after a drop, as `onDragEnd` computes it; `newId` is the generated id. */
  function Drop(s: Elements, ev: DragEndEvent, newId: string): (r: DropResult)
    requires PaletteModelled(ev)
    ensures r.ElementNotFound? ==> ev.active.Some? && ev.over.Some? && !ev.over.value.DesignerDropArea?
    ensures r.Applied? && ev.active.Some? && ev.active.value.SidebarButton? && ev.over.Some? ==> |r.elements| == |s| + 1
    ensures r.Applied? && ev.active.Some? && ev.active.value.DesignerElement? ==> |r.elements| <= |s|
  {
    if ev.active.None? || ev.over.None? then Applied(s)
    else
      var active, over := ev.active.value, ev.over.value;
      match active
      case SidebarButton(t) =>
        var created := FormElements.Construct(t, newId);
        if over.DesignerDropArea? then Applied(Insert(s, |s|, created))
        else
          var overIndex := IndexOfId(s, over.elementId);
          if overIndex == -1 then ElementNotFound
          else Applied(Insert(s, TargetIndex(overIndex, over), created))
      case DesignerElement(_, activeId) =>
        if over.DesignerDropArea? then Applied(s)
        else
          var activeIndex := IndexOfId(s, activeId);
          var overIndex := IndexOfId(s, over.elementId);
          if activeIndex == -1 || overIndex == -1 then ElementNotFound
          else Applied(Insert(RemoveId(s, activeId), TargetIndex(overIndex, over), s[activeIndex]))
  }

  /** Without an active item or a drop target nothing changes. */
  lemma NoTargetNoChange(s: Elements, ev: DragEndEvent, newId: string)
    requires PaletteModelled(ev)
    requires ev.active.None? || ev.over.None?
    ensures Drop(s, ev, newId) == Applied(s)
  {
  }

  /** A palette button dropped on the canvas appends one new element of its type. */
  lemma ButtonOnCanvasAppends(s: Elements, t: ElementsType, newId: string)
    requires FormElements.Modelled(t)
    ensures var r := Drop(s, DragEndEvent(Some(SidebarButton(t)), Some(DesignerDropArea)), newId);
      && r.Applied?
      && r.elements == s + [FormElements.Construct(t, newId)]
  {
    assert s[..|s|] == s;
  }

  /**
   * A palette button dropped on an element inserts the new element at that
   * element's index (top half) or just after it (bottom half); every other
   * element keeps its relative place. An unknown target is "Element not found".
   */
  lemma ButtonOnElementInserts(s: Elements, t: ElementsType, over: OverTarget, newId: string)
    requires FormElements.Modelled(t)
    requires !over.DesignerDropArea?
    ensures var r := Drop(s, DragEndEvent(Some(SidebarButton(t)), Some(over)), newId);
      && (!HasId(s, over.elementId) <==> r == ElementNotFound)
      && (r.Applied? ==>
            var i := IndexOfId(s, over.elementId);
            var k := if over.BottomHalf? then i + 1 else i;
            && |r.elements| == |s| + 1
            && r.elements[k] == FormElements.Construct(t, newId)
            && r.elements[..k] == s[..k]
            && r.elements[k + 1..] == s[k..])
  {
  }

  /** An element dropped on the canvas rather than on an element half changes nothing. */
  lemma ElementOnCanvasNoChange(s: Elements, t: ElementsType, id: string, newId: string)
    ensures Drop(s, DragEndEvent(Some(DesignerElement(t, id)), Some(DesignerDropArea)), newId) == Applied(s)
  {
  }

  /** Inserting adds exactly the inserted element to the multiset of elements. */
  lemma InsertMultiset(s: Elements, index: nat, e: FormElementInstance)
    ensures multiset(Insert(s, index, e)) == multiset(s) + multiset{e}
  {
    var k := if index <= |s| then index else |s|;
    var front, back := s[..k], s[k..];
    assert Insert(s, index, e) == front + [e] + back;
    assert multiset(front + [e] + back) == multiset(front) + multiset{e} + multiset(back);
    assert multiset(s) == multiset(front) + multiset(back) by { assert s == front + back; }
  }

  /**
   * With unique ids, moving an element over another keeps the same elements:
   * the length and the multiset of elements are preserved and ids stay unique.
   * Missing ids give "Element not found".
   */
  lemma MoveIsPermutation(s: Elements, t: ElementsType, activeId: string, over: OverTarget, newId: string)
    requires UniqueIds(s)
    requires !over.DesignerDropArea?
    ensures var r := Drop(s, DragEndEvent(Some(DesignerElement(t, activeId)), Some(over)), newId);
      && (r == ElementNotFound <==> !HasId(s, activeId) || !HasId(s, over.elementId))
      && (r.Applied? ==>
            && |r.elements| == |s|
            && multiset(r.elements) == multiset(s)
            && UniqueIds(r.elements))
  {
    if HasId(s, activeId) && HasId(s, over.elementId) {
      DropMoveUnfolds(s, t, activeId, over, newId);
      MoveKeepsElements(s, activeId, TargetIndex(IndexOfId(s, over.elementId), over));
    }
  }

  /** With unique ids, removal by id takes exactly one copy of the element holding it out of the multiset. */
  lemma RemoveOneMultiset(s: Elements, id: string)
    requires UniqueIds(s) && HasId(s, id)
    ensures multiset(RemoveId(s, id)) + multiset{s[IndexOfId(s, id)]} == multiset(s)
  {
    var a := IndexOfId(s, id);
    var front, back := s[..a], s[a + 1..];
    assert RemoveId(s, id) == front + back by { RemoveUniqueId(s, id); }
    assert s == front + [s[a]] + back;
  }

  /** Taking out the element with `activeId` and putting it back at any index permutes a list with unique ids. */
  lemma MoveKeepsElements(s: Elements, activeId: string, k: nat)
    requires UniqueIds(s) && HasId(s, activeId)
    ensures var r := Insert(RemoveId(s, activeId), k, s[IndexOfId(s, activeId)]);
      |r| == |s| && multiset(r) == multiset(s) && UniqueIds(r)
  {
    var a := IndexOfId(s, activeId);
    var rest := RemoveId(s, activeId);
    var r := Insert(rest, k, s[a]);
    assert multiset(r) == multiset(s) by {
      RemoveOneMultiset(s, activeId);
      InsertMultiset(rest, k, s[a]);
    }
    assert |r| == |s| by { assert |multiset(r)| == |multiset(s)|; }
    assert UniqueIds(r) by {
      RemoveKeepsUnique(s, activeId);
      InsertKeepsUnique(rest, k, s[a]);
    }
  }

  /** The worked case: in [A, B, C], dragging A onto B's top half gives [B, A, C]. */
  lemma MoveOntoTopHalfExample(a: FormElementInstance, b: FormElementInstance, c: FormElementInstance, newId: string)
    requires a.id != b.id && b.id != c.id && a.id != c.id
    ensures Drop([a, b, c], DragEndEvent(Some(DesignerElement(a.kind, a.id)), Some(TopHalf(b.kind, b.id))), newId)
         == Applied([b, a, c])
  {
    assert IndexOfId([a, b, c], b.id) == 1;
    assert RemoveId([a, b, c], a.id) == [b, c];
  }

  /**
   * As written, a downward move lands one slot past the drop region: in
   * [A, B, C], dropping A on B's bottom half ("after B") gives [B, C, A],
   * not [B, A, C].
   */
  lemma MoveAfterOvershoots(a: FormElementInstance, b: FormElementInstance, c: FormElementInstance, newId: string)
    requires a.id != b.id && b.id != c.id && a.id != c.id
    ensures Drop([a, b, c], DragEndEvent(Some(DesignerElement(a.kind, a.id)), Some(BottomHalf(b.kind, b.id))), newId)
         == Applied([b, c, a])
    ensures [b, c, a] != [b, a, c]
  {
    assert IndexOfId([a, b, c], b.id) == 1;
    assert RemoveId([a, b, c], a.id) == [b, c];
  }

  /**
   * The intended move: the target index is looked up in the list after the
   * moved element has been taken out, so the element lands right before
   * (top half) or right after (bottom half) the element it was dropped on.
   */
  function MoveCorrected(s: Elements, activeId: string, over: OverTarget): (r: DropResult)
    requires !over.DesignerDropArea?
    ensures r == ElementNotFound <==> !HasId(s, activeId) || !HasId(s, over.elementId)
  {
    var activeIndex := IndexOfId(s, activeId);
    var overIndex := IndexOfId(s, over.elementId);
    if activeIndex == -1 || overIndex == -1 then ElementNotFound
    else
      var rest := RemoveId(s, activeId);
      var restIndex := IndexOfId(rest, over.elementId);
      if restIndex == -1 then Applied(s)
      else Applied(Insert(rest, TargetIndex(restIndex, over), s[activeIndex]))
  }

  /** An element other than the removed one is still found after the removal. */
  lemma TargetSurvivesRemoval(s: Elements, activeId: string, overId: string)
    requires HasId(s, overId) && activeId != overId
    ensures HasId(RemoveId(s, activeId), overId)
  {
    var o := IndexOfId(s, overId);
    RemoveMembers(s, activeId, o);
    var rest := RemoveId(s, activeId);
    var j :| 0 <= j < |rest| && rest[j] == s[o];
    assert rest[j].id == overId;
  }

  /** `m` sits right before (top half) or right after (bottom half) an element with the target id. */
  predicate LandsNextTo(r: Elements, m: FormElementInstance, over: OverTarget)
    requires !over.DesignerDropArea?
  {
    if over.TopHalf? then exists k :: 0 <= k < |r| - 1 && r[k] == m && r[k + 1].id == over.elementId
    else exists k :: 0 < k < |r| && r[k] == m && r[k - 1].id == over.elementId
  }

  /**
   * The corrected move puts the dragged element immediately before (top
   * half) or after (bottom half) the target and keeps the order of all the
   * other elements.
   */
  lemma MoveCorrectedPlacesNextToTarget(s: Elements, activeId: string, over: OverTarget)
    requires UniqueIds(s)
    requires !over.DesignerDropArea?
    requires HasId(s, activeId) && HasId(s, over.elementId)
    requires activeId != over.elementId
    ensures var r := MoveCorrected(s, activeId, over);
      && r.Applied?
      && |r.elements| == |s|
      && RemoveId(r.elements, activeId) == RemoveId(s, activeId)
      && LandsNextTo(r.elements, s[IndexOfId(s, activeId)], over)
  {
    var rest := RemoveId(s, activeId);
    var m := s[IndexOfId(s, activeId)];
    TargetSurvivesRemoval(s, activeId, over.elementId);
    RemoveUniqueLength(s, activeId);
    var j := IndexOfId(rest, over.elementId);
    var r := Insert(rest, TargetIndex(j, over), m);
    assert MoveCorrected(s, activeId, over) == Applied(r);
    InsertThenRemove(rest, TargetIndex(j, over), m);
    InsertNextTo(rest, j, over, m);
  }

  /** With unique ids, removing a present id shortens the list by exactly one. */
  lemma RemoveUniqueLength(s: Elements, id: string)
    requires UniqueIds(s) && HasId(s, id)
    ensures |RemoveId(s, id)| == |s| - 1
  {
    RemoveUniqueId(s, id);
  }

  /** Inserting at the target index of the element at `j` lands the new element next to it. */
  lemma InsertNextTo(rest: Elements, j: nat, over: OverTarget, m: FormElementInstance)
    requires !over.DesignerDropArea?
    requires j < |rest| && rest[j].id == over.elementId
    ensures LandsNextTo(Insert(rest, TargetIndex(j, over), m), m, over)
  {
    var k := TargetIndex(j, over);
    var r := Insert(rest, k, m);
    assert r[k] == m;
    if over.TopHalf? {
      assert r[k + 1..][0] == rest[k..][0];
    } else {
      assert r[..k][j] == rest[..k][j];
    }
  }

  /** Removal keeps every element whose id differs. */
  lemma {:induction false} RemoveMembers(s: Elements, id: string, k: nat)
    requires k < |s| && s[k].id != id
    ensures s[k] in RemoveId(s, id)
  {
    if k > 0 {
      RemoveMembers(s[1..], id, k - 1);
    }
  }

  /** The round trip [A,B,C] -> A after B -> [B,A,C] -> A before B -> [A,B,C] holds for the corrected move. */
  lemma MoveCorrectedRoundTrip(a: FormElementInstance, b: FormElementInstance, c: FormElementInstance)
    requires a.id != b.id && b.id != c.id && a.id != c.id
    ensures MoveCorrected([a, b, c], a.id, BottomHalf(b.kind, b.id)) == Applied([b, a, c])
    ensures MoveCorrected([b, a, c], a.id, TopHalf(b.kind, b.id)) == Applied([a, b, c])
  {
    assert RemoveId([a, b, c], a.id) == [b, c];
    assert RemoveId([b, a, c], a.id) == [b, c];
    assert IndexOfId([b, c], b.id) == 0;
  }

  /** Moving an element upward (onto an element before it), the code as written already agrees with the corrected move. */
  lemma UpwardMovesAgree(s: Elements, t: ElementsType, activeId: string, over: OverTarget, newId: string)
    requires UniqueIds(s)
    requires !over.DesignerDropArea?
    requires HasId(s, activeId) && HasId(s, over.elementId)
    requires IndexOfId(s, over.elementId) < IndexOfId(s, activeId)
    ensures Drop(s, DragEndEvent(Some(DesignerElement(t, activeId)), Some(over)), newId)
         == MoveCorrected(s, activeId, over)
  {
    var a := IndexOfId(s, activeId);
    var o := IndexOfId(s, over.elementId);
    var rest := RemoveId(s, activeId);
    RemoveUniqueId(s, activeId);
    assert rest[..a] == s[..a];
    IndexOfIdStable(s, rest, over.elementId, a);
    DropMoveUnfolds(s, t, activeId, over, newId);
    assert MoveCorrected(s, activeId, over) == Applied(Insert(rest, TargetIndex(o, over), s[a]));
  }

  /** The move branch of `Drop` when both ids are present. */
  lemma DropMoveUnfolds(s: Elements, t: ElementsType, activeId: string, over: OverTarget, newId: string)
    requires !over.DesignerDropArea?
    requires HasId(s, activeId) && HasId(s, over.elementId)
    ensures Drop(s, DragEndEvent(Some(DesignerElement(t, activeId)), Some(over)), newId)
         == Applied(Insert(RemoveId(s, activeId), TargetIndex(IndexOfId(s, over.elementId), over), s[IndexOfId(s, activeId)]))
  {
  }

  /** Two lists that agree on their first `n` elements find an id that occurs there at the same index. */
  lemma IndexOfIdStable(s: Elements, t: Elements, id: string, n: nat)
    requires n <= |s| && n <= |t| && s[..n] == t[..n]
    requires 0 <= IndexOfId(s, id) < n
    ensures IndexOfId(t, id) == IndexOfId(s, id)
  {
    var o := IndexOfId(s, id);
    assert t[o] == t[..n][o] == s[..n][o] == s[o];
    forall k | 0 <= k < o ensures t[k].id != id {
      assert t[k] == t[..n][k] == s[..n][k] == s[k];
    }
  }

  /** The designer canvas, holding the shared draft state. */
  class Designer {
    const designer: DesignerState

    constructor (designer: DesignerState)
      ensures this.designer == designer
    {
      this.designer := designer;
    }

    /**
     * `onDragEnd`: resolves a finished drag against the current elements.
     * `random` is the draw behind the generated id. A missing element is
     * reported before anything changes.
     */
    method OnDragEnd(ev: DragEndEvent, random: real) returns (result: DropResult)
      requires 0.0 <= random < 1.0
      requires PaletteModelled(ev)
      modifies designer
      ensures result == Drop(old(designer.elements), ev, Utils.IdGenerator(random))
      ensures result.Applied? ==> designer.elements == result.elements
      ensures result == ElementNotFound ==> designer.elements == old(designer.elements)
      ensures designer.selected ==
        if result.Applied? && ev.active.Some? && ev.over.Some?
           && ev.active.value.DesignerElement? && !ev.over.value.DesignerDropArea?
           && old(designer.selected).Some? && old(designer.selected).value.id == ev.active.value.elementId
        then None else old(designer.selected)
    {
      if ev.active.None? || ev.over.None? {
        return Applied(designer.elements);
      }
      var active, over := ev.active.value, ev.over.value;
      if active.SidebarButton? && over.DesignerDropArea? {
        var newElement := FormElements.Construct(active.buttonType, Utils.IdGenerator(random));
        designer.AddElement(|designer.elements|, newElement);
        return Applied(designer.elements);
      }
      var overElement := over.TopHalf? || over.BottomHalf?;
      if active.SidebarButton? && overElement {
        var newElement := FormElements.Construct(active.buttonType, Utils.IdGenerator(random));
        var overIndex := IndexOfId(designer.elements, over.elementId);
        if overIndex == -1 {
          return ElementNotFound;
        }
        var index := overIndex;
        if over.BottomHalf? {
          index := overIndex + 1;
        }
        designer.AddElement(index, newElement);
        return Applied(designer.elements);
      }
      if overElement && active.DesignerElement? {
        var activeIndex := IndexOfId(designer.elements, active.elementId);
        var overIndex := IndexOfId(designer.elements, over.elementId);
        if activeIndex == -1 || overIndex == -1 {
          return ElementNotFound;
        }
        var activeElement := designer.elements[activeIndex];
        designer.RemoveElement(active.elementId);
        var index := overIndex;
        if over.BottomHalf? {
          index := overIndex + 1;
        }
        designer.AddElement(index, activeElement);
      }
      return Applied(designer.elements);
    }

    /** A click on the empty canvas drops the selection, if there is one. */
    method OnCanvasClick()
      modifies designer
      ensures designer.selected == None
      ensures designer.elements == old(designer.elements)
    {
      if designer.selected.Some? {
        designer.SetSelectedElement(None);
      }
    }
  }
}
