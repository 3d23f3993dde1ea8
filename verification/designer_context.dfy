/**
 * The designer's shared draft state (the `useDesigner` hook): the ordered
 * element list and the selected element, with the primitive edits the
 * designer and the property editors call. The source of the designer hook is
 * not part of this model; its operations follow the contract assumed for it:
 * insertion with JavaScript `splice` semantics, removal by id that also drops
 * a selection of the removed element, and replacement at the position of an id.
 */
module DesignerContext {
  import opened Wrappers
  import opened ElementTypes

  type Elements = seq<FormElementInstance>

  predicate HasId(s: Elements, id: string) {
    exists k :: 0 <= k < |s| && s[k].id == id
  }

  predicate UniqueIds(s: Elements) {
    forall i, j :: 0 <= i < j < |s| ==> s[i].id != s[j].id
  }

  /** `Array.prototype.findIndex` on the id: the first position holding `id`, or -1. */
  function IndexOfId(s: Elements, id: string): (i: int)
    ensures -1 <= i < |s|
    ensures i == -1 <==> !HasId(s, id)
    ensures i >= 0 ==> s[i].id == id && forall k :: 0 <= k < i ==> s[k].id != id
  {
    if s == [] then -1
    else if s[0].id == id then 0
    else
      var j := IndexOfId(s[1..], id);
      if j == -1 then -1 else j + 1
  }

  /** `splice(index, 0, e)` on a copy: an index past the end appends. */
  function Insert(s: Elements, index: nat, e: FormElementInstance): (r: Elements)
    ensures |r| == |s| + 1
    ensures var k := if index <= |s| then index else |s|;
      r[k] == e && r[..k] == s[..k] && r[k + 1..] == s[k..]
  {
    var k := if index <= |s| then index else |s|;
    s[..k] + [e] + s[k..]
  }

  /** `filter((el) => el.id !== id)`: every element with `id` goes, the rest keep their order. */
  function RemoveId(s: Elements, id: string): (r: Elements)
    ensures |r| <= |s|
    ensures HasId(s, id) ==> |r| < |s|
    ensures !HasId(r, id)
    ensures !HasId(s, id) ==> r == s
  {
    if s == [] then []
    else if s[0].id == id then RemoveId(s[1..], id)
    else
      assert HasId(s, id) ==> HasId(s[1..], id) by {
        if HasId(s, id) {
          var k :| 0 <= k < |s| && s[k].id == id;
          assert s[1..][k - 1].id == id;
        }
      }
      [s[0]] + RemoveId(s[1..], id)
  }

  /** Replaces the element at the first position of `id`; nothing changes when `id` is absent. */
  function ReplaceId(s: Elements, id: string, e: FormElementInstance): (r: Elements)
    ensures |r| == |s|
    ensures var i := IndexOfId(s, id);
      if i == -1 then r == s
      else r[i] == e && forall k :: 0 <= k < |s| && k != i ==> r[k] == s[k]
  {
    var i := IndexOfId(s, id);
    if i == -1 then s else s[i := e]
  }

  /** With unique ids, removing an id drops exactly the one position that holds it. */
  lemma {:induction false} RemoveUniqueId(s: Elements, id: string)
    requires UniqueIds(s)
    requires HasId(s, id)
    ensures var i := IndexOfId(s, id); RemoveId(s, id) == s[..i] + s[i + 1..]
  {
    var t := s[1..];
    TailUnique(s);
    if s[0].id != id {
      var k :| 0 <= k < |s| && s[k].id == id;
      assert t[k - 1].id == id;
      RemoveUniqueId(t, id);
      var j := IndexOfId(t, id);
      assert RemoveId(s, id) == [s[0]] + (t[..j] + t[j + 1..]);
      ConsSplit(s, j);
    } else {
      HeadIdNotInTail(s);
    }
  }

  /** Cutting position `j` out of the tail and putting the head back cuts position `j + 1` out of the list. */
  lemma ConsSplit(s: Elements, j: nat)
    requires j + 1 < |s|
    ensures [s[0]] + (s[1..][..j] + s[1..][j + 1..]) == s[..j + 1] + s[j + 2..]
  {
    assert s[..j + 1] == [s[0]] + s[1..][..j];
    assert s[j + 2..] == s[1..][j + 1..];
  }

  /** The tail of a list with unique ids has unique ids. */
  lemma TailUnique(s: Elements)
    requires UniqueIds(s) && |s| > 0
    ensures UniqueIds(s[1..])
  {
    var t := s[1..];
    forall a, b | 0 <= a < b < |t| ensures t[a].id != t[b].id {
      assert t[a] == s[a + 1] && t[b] == s[b + 1];
    }
  }

  /** With unique ids, the head's id does not occur in the tail. */
  lemma HeadIdNotInTail(s: Elements)
    requires UniqueIds(s) && |s| > 0
    ensures !HasId(s[1..], s[0].id)
  {
    var t := s[1..];
    forall k | 0 <= k < |t| ensures t[k].id != s[0].id {
      assert t[k] == s[k + 1];
    }
  }

  /** Removal only keeps elements of the input whose id differs. */
  lemma {:induction false} RemoveKeepsOnlyOthers(s: Elements, id: string, e: FormElementInstance)
    requires e in RemoveId(s, id)
    ensures e in s && e.id != id
  {
    if s[0].id == id || e != s[0] {
      RemoveKeepsOnlyOthers(s[1..], id, e);
    }
  }

  /** Inserting an element whose id is new keeps ids unique. */
  lemma InsertKeepsUnique(s: Elements, index: nat, e: FormElementInstance)
    requires UniqueIds(s)
    requires !HasId(s, e.id)
    ensures UniqueIds(Insert(s, index, e))
  {
    var r := Insert(s, index, e);
    var k := if index <= |s| then index else |s|;
    forall i, j | 0 <= i < j < |r| ensures r[i].id != r[j].id {
      if i < k && j > k {
        assert r[i] == s[i] && r[j] == s[j - 1];
      } else if i < k && j == k {
        assert r[i] == s[i];
      } else if i == k {
        assert r[j] == s[j - 1];
      } else if i < k {
        assert r[i] == s[i] && r[j] == s[j];
      } else {
        assert r[i] == s[i - 1] && r[j] == s[j - 1];
      }
    }
  }

  /** Removal never creates a duplicate id. */
  lemma {:induction false} RemoveKeepsUnique(s: Elements, id: string)
    requires UniqueIds(s)
    ensures UniqueIds(RemoveId(s, id))
  {
    if s != [] {
      var t := s[1..];
      TailUnique(s);
      RemoveKeepsUnique(t, id);
      if s[0].id != id {
        var r := RemoveId(t, id);
        forall e | e in r ensures e.id != s[0].id {
          RemoveKeepsOnlyOthers(t, id, e);
          var k :| 0 <= k < |t| && t[k] == e;
          assert s[k + 1] == e;
        }
      }
    }
  }

  /** `addElement(i, e)` followed by `removeElement(e.id)` restores the list when `e.id` was new. */
  lemma {:induction false} InsertThenRemove(s: Elements, index: nat, e: FormElementInstance)
    requires !HasId(s, e.id)
    ensures RemoveId(Insert(s, index, e), e.id) == s
  {
    var k := if index <= |s| then index else |s|;
    var front, back := s[..k], s[k..];
    assert Insert(s, index, e) == front + [e] + back;
    assert RemoveId(front + [e], e.id) == front by {
      AbsentFromParts(s, k, e.id);
      RemoveConcat(front, [e], e.id);
      assert RemoveId([e], e.id) == [] by { assert [e][1..] == []; }
    }
    assert RemoveId(back, e.id) == back by { AbsentFromParts(s, k, e.id); }
    assert front + back == s;
    RemoveConcat(front + [e], back, e.id);
  }

  /** An id absent from a list is absent from both halves of any split. */
  lemma AbsentFromParts(s: Elements, k: nat, id: string)
    requires k <= |s| && !HasId(s, id)
    ensures !HasId(s[..k], id) && !HasId(s[k..], id)
  {
    forall j | 0 <= j < k ensures s[..k][j].id != id { assert s[..k][j] == s[j]; }
    forall j | 0 <= j < |s| - k ensures s[k..][j].id != id { assert s[k..][j] == s[k + j]; }
  }

  /** Removal distributes over concatenation. */
  lemma {:induction false} RemoveConcat(a: Elements, b: Elements, id: string)
    ensures RemoveId(a + b, id) == RemoveId(a, id) + RemoveId(b, id)
  {
    if a != [] {
      assert (a + b)[1..] == a[1..] + b;
      RemoveConcat(a[1..], b, id);
    } else {
      assert a + b == b;
    }
  }

  /**
   * The designer's live draft. `selected` holds a copy of the element the
   * user last clicked, as the hook does.
   */
  class DesignerState {
    var elements: Elements
    var selected: Option<FormElementInstance>

    constructor ()
      ensures elements == [] && selected == None
    {
      elements := [];
      selected := None;
    }

    /** `addElement(index, element)`: inserts, leaving the selection alone. */
    method AddElement(index: nat, element: FormElementInstance)
      modifies this
      ensures elements == Insert(old(elements), index, element)
      ensures selected == old(selected)
    {
      elements := Insert(elements, index, element);
    }

    /** `removeElement(id)`: drops the element and a selection that pointed at it. */
    method RemoveElement(id: string)
      modifies this
      ensures elements == RemoveId(old(elements), id)
      ensures selected == if old(selected).Some? && old(selected).value.id == id then None else old(selected)
    {
      elements := RemoveId(elements, id);
      if selected.Some? && selected.value.id == id {
        selected := None;
      }
    }

    /** `updateElement(id, element)`: replaces in place, keeping the position. */
    method UpdateElement(id: string, element: FormElementInstance)
      modifies this
      ensures elements == ReplaceId(old(elements), id, element)
      ensures selected == old(selected)
    {
      elements := ReplaceId(elements, id, element);
    }

    /** `setSelectedElement(element or null)`. */
    method SetSelectedElement(element: Option<FormElementInstance>)
      modifies this
      ensures selected == element && elements == old(elements)
    {
      selected := element;
    }
  }
}
