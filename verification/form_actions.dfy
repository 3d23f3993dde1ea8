/**
 * The server actions on forms (`actions/form.ts`) and the admin guard in
 * `lib/utils.ts`. Each action checks the current user, builds the filter of
 * its database call and issues it; the calls themselves are described by the
 * `Query` they issue, and the filters are given a meaning over form records
 * so that the access rules can be stated. The per-day bucketing of
 * `GetMostUserFormByDate` runs after its query and is modelled in full.
 */
module FormActions {
  import opened Wrappers
  import opened ElementTypes
  import Utils

  /** The signed-in user as the identity service reports it; `role` is its `publicMetadata.role`. */
  datatype User = User(id: string, role: string)

  predicate IsAdmin(u: User) {
    u.role == "admin"
  }

  /** `UserNotFoundErr`, the "Form not valid" error, and the not-found page `OnlyAdmin` redirects to. */
  datatype ActionError = UserNotFound | FormNotValid | NotFound

  /** A stored form, with the columns the actions read or write. */
  datatype Form = Form(
    id: int, userId: string, name: string, description: string, content: seq<FormElementInstance>,
    published: bool, visits: nat, submission: nat, shareUrl: string, createdAt: int,
    submissions: seq<map<string, Value>>)

  /** The `where` object `{ id, userId? }` of the owner-scoped actions. */
  datatype Where = Where(id: int, userId: Option<string>)

  /** A form satisfies a `where` when the id agrees and, if a user id is present, so does the owner. */
  predicate Matches(w: Where, f: Form) {
    f.id == w.id && (w.userId.None? || f.userId == w.userId.value)
  }

  /** The one update each action writes. */
  datatype Change =
    | SetContent(content: seq<FormElementInstance>)
    | SetPublished(published: bool)
    | SetName(name: string)
    | SetDescription(description: string)

  /** The database call an action issues. */
  datatype Query =
    | SumByUser(ownerId: string)
    | CreateFor(ownerId: string, name: string, description: string)
    | FindManyByUser(ownerId: string)
    | FindUnique(where: Where, withSubmissions: bool)
    | Update(where: Where, change: Change)
    | RecordSubmission(shareUrl: string, values: map<string, Value>)
    | CountVisit(shareUrl: string)
    | CountAll
    | FindAll
    | Delete(where: Where)

  /** `w` selects exactly form `id`, and only if the user is an admin or owns it. */
  ghost predicate ScopedTo(w: Where, u: User, id: int) {
    forall f :: Matches(w, f) <==> f.id == id && (IsAdmin(u) || f.userId == u.id)
  }

  /**
   * The owner-scoping rule: no user is an error; an admin's filter is the id
   * alone; anyone else's filter adds their own user id.
   */
  function ScopedWhere(user: Option<User>, id: int): (r: Result<Where, ActionError>)
    ensures r.Failure? <==> user.None?
    ensures r.Failure? ==> r.error == UserNotFound
    ensures r.Success? ==> r.value.id == id && (r.value.userId.None? <==> IsAdmin(user.value))
    ensures r.Success? ==> ScopedTo(r.value, user.value, id)
  {
    if user.None? then Failure(UserNotFound)
    else if user.value.role != "admin" then Success(Where(id, Some(user.value.id)))
    else Success(Where(id, None))
  }

  /** `!user || role !== 'admin'`: the guard of the admin-only actions. */
  function RequireAdmin(user: Option<User>): (r: Result<User, ActionError>)
    ensures r.Success? <==> user.Some? && IsAdmin(user.value)
    ensures r.Success? ==> r.value == user.value
    ensures r.Failure? ==> r.error == UserNotFound
  {
    if user.None? || user.value.role != "admin" then Failure(UserNotFound) else Success(user.value)
  }

  /** `GetFormStats`: sums the counters of the caller's own forms. */
  function GetFormStats(user: Option<User>): (r: Result<Query, ActionError>)
    ensures r.Failure? <==> user.None?
    ensures r.Success? ==> r.value == SumByUser(user.value.id)
  {
    if user.None? then Failure(UserNotFound) else Success(SumByUser(user.value.id))
  }

  datatype Stats = Stats(visits: nat, submissions: nat)

  /** `_sum.visits || 0` and `_sum.submission || 0`: with no forms to sum, both read as 0. */
  function StatsOf(visitsSum: Option<nat>, submissionSum: Option<nat>): (s: Stats)
    ensures visitsSum.None? ==> s.visits == 0
    ensures visitsSum.Some? ==> s.visits == visitsSum.value
    ensures submissionSum.None? ==> s.submissions == 0
    ensures submissionSum.Some? ==> s.submissions == submissionSum.value
  {
    Stats(if visitsSum.Some? then visitsSum.value else 0,
          if submissionSum.Some? then submissionSum.value else 0)
  }

  /** `CreateForm`: the user check comes first, then the schema check; the form is owned by the caller. */
  function CreateForm(user: Option<User>, name: string, description: string, schemaValid: bool): (r: Result<Query, ActionError>)
    ensures user.None? ==> r == Failure(UserNotFound)
    ensures user.Some? && !schemaValid ==> r == Failure(FormNotValid)
    ensures r.Success? <==> user.Some? && schemaValid
    ensures r.Success? ==> r.value == CreateFor(user.value.id, name, description)
  {
    if user.None? then Failure(UserNotFound)
    else if !schemaValid then Failure(FormNotValid)
    else Success(CreateFor(user.value.id, name, description))
  }

  /** `GetFormsByUser`: the caller's own forms, admins included. */
  function GetFormsByUser(user: Option<User>): (r: Result<Query, ActionError>)
    ensures r.Failure? <==> user.None?
    ensures r.Success? ==> r.value == FindManyByUser(user.value.id)
  {
    if user.None? then Failure(UserNotFound) else Success(FindManyByUser(user.value.id))
  }

  /** `GetFormById` and `GetFormWithSubmissions`: an owner-scoped lookup of one form. */
  function GetFormById(user: Option<User>, id: int, withSubmissions: bool): (r: Result<Query, ActionError>)
    ensures r.Failure? <==> user.None?
    ensures r.Success? ==> r.value.FindUnique? && r.value.withSubmissions == withSubmissions
    ensures r.Success? ==> ScopedTo(r.value.where, user.value, id)
  {
    var w :- ScopedWhere(user, id);
    Success(FindUnique(w, withSubmissions))
  }

  /** `UpdateFormContent`, `UpdateStatusForm`, `UpdateFormTitle` and `UpdateFormDesc`: an owner-scoped update of one column. */
  function UpdateForm(user: Option<User>, id: int, change: Change): (r: Result<Query, ActionError>)
    ensures r.Failure? <==> user.None?
    ensures r.Success? ==> r.value.Update? && r.value.change == change
    ensures r.Success? ==> ScopedTo(r.value.where, user.value, id)
  {
    var w :- ScopedWhere(user, id);
    Success(Update(w, change))
  }

  /** An update applied to the stored forms: every form the filter selects gets the new column value. */
  function ApplyUpdate(forms: seq<Form>, w: Where, change: Change): (r: seq<Form>)
    ensures |r| == |forms|
    ensures forall i :: 0 <= i < |forms| && !Matches(w, forms[i]) ==> r[i] == forms[i]
  {
    seq(|forms|, i requires 0 <= i < |forms| =>
      var f := forms[i];
      if !Matches(w, f) then f
      else match change
        case SetContent(c) => f.(content := c)
        case SetPublished(p) => f.(published := p)
        case SetName(n) => f.(name := n)
        case SetDescription(d) => f.(description := d))
  }

  /**
   * Whatever a non-admin updates, every form owned by someone else is left
   * as it was, and so is every form with another id.
   */
  lemma UpdateLeavesOthersForms(forms: seq<Form>, u: User, id: int, change: Change)
    ensures var r := UpdateForm(Some(u), id, change);
      && r.Success?
      && var after := ApplyUpdate(forms, r.value.where, change);
      && (forall i :: 0 <= i < |forms| && forms[i].id != id ==> after[i] == forms[i])
      && (!IsAdmin(u) ==> forall i :: 0 <= i < |forms| && forms[i].userId != u.id ==> after[i] == forms[i])
  {
    var w := UpdateForm(Some(u), id, change).value.where;
    assert ScopedTo(w, u, id);
    forall i | 0 <= i < |forms| && (forms[i].id != id || (!IsAdmin(u) && forms[i].userId != u.id))
      ensures !Matches(w, forms[i])
    {
    }
  }

  /** `SubmitForm(shareUrl, content)`: counts one submission and stores its values, for a published form only. */
  function SubmitForm(shareUrl: string, values: map<string, Value>): (q: Query)
    ensures q.RecordSubmission? && q.shareUrl == shareUrl && q.values == values
  {
    RecordSubmission(shareUrl, values)
  }

  /** `GetFormContentByUrl(shareUrl)`: counts one visit of a published form and reads it. */
  function GetFormContentByUrl(shareUrl: string): (q: Query)
    ensures q.CountVisit? && q.shareUrl == shareUrl
  {
    CountVisit(shareUrl)
  }

  /** The `{ shareUrl, published: true }` filter of the two public calls. */
  predicate PublishedAt(f: Form, shareUrl: string) {
    f.shareUrl == shareUrl && f.published
  }

  /** A public call applied to the stored forms. */
  function ApplyPublic(forms: seq<Form>, q: Query): (r: seq<Form>)
    requires q.RecordSubmission? || q.CountVisit?
    ensures |r| == |forms|
    ensures forall i :: 0 <= i < |forms| && !PublishedAt(forms[i], q.shareUrl) ==> r[i] == forms[i]
    ensures forall i :: 0 <= i < |forms| ==>
      && r[i].id == forms[i].id && r[i].userId == forms[i].userId && r[i].content == forms[i].content
      && r[i].published == forms[i].published && r[i].shareUrl == forms[i].shareUrl
  {
    seq(|forms|, i requires 0 <= i < |forms| =>
      var f := forms[i];
      if !PublishedAt(f, q.shareUrl) then f
      else if q.RecordSubmission? then f.(submission := f.submission + 1, submissions := f.submissions + [q.values])
      else f.(visits := f.visits + 1))
  }

  /**
   * Submissions and visits are recorded only on a published form with the
   * given share url: an unpublished form keeps its counters and its
   * submissions, and a published one gains exactly one.
   */
  lemma PublicCallsCountOnlyPublished(forms: seq<Form>, shareUrl: string, values: map<string, Value>)
    ensures var after := ApplyPublic(forms, SubmitForm(shareUrl, values));
      forall i :: 0 <= i < |forms| ==>
        && after[i].visits == forms[i].visits
        && after[i].submission == forms[i].submission + (if PublishedAt(forms[i], shareUrl) then 1 else 0)
        && after[i].submissions == forms[i].submissions + (if PublishedAt(forms[i], shareUrl) then [values] else [])
    ensures var after := ApplyPublic(forms, GetFormContentByUrl(shareUrl));
      forall i :: 0 <= i < |forms| ==>
        && after[i].submission == forms[i].submission
        && after[i].submissions == forms[i].submissions
        && after[i].visits == forms[i].visits + (if PublishedAt(forms[i], shareUrl) then 1 else 0)
  {
  }

  /** `GetAllForms`: admin only. */
  function GetAllForms(user: Option<User>): (r: Result<Query, ActionError>)
    ensures r.Success? <==> user.Some? && IsAdmin(user.value)
    ensures r.Success? ==> r.value == FindAll
    ensures r.Failure? ==> r.error == UserNotFound
  {
    var _ :- RequireAdmin(user);
    Success(FindAll)
  }

  /**
   * `DeleteFormById`: admin only. The owner scoping that follows the guard
   * can never apply, so the filter is the id alone.
   */
  function DeleteFormById(user: Option<User>, id: int): (r: Result<Query, ActionError>)
    ensures r.Success? <==> user.Some? && IsAdmin(user.value)
    ensures r.Failure? ==> r.error == UserNotFound
    ensures r.Success? ==> r.value.Delete? && forall f :: Matches(r.value.where, f) <==> f.id == id
  {
    var u :- RequireAdmin(user);
    var w := if u.role != "admin" then Where(id, Some(u.id)) else Where(id, None);
    Success(Delete(w))
  }

  /** `GetAllFormCount` behind `OnlyAdmin`: anyone but an admin gets the not-found page. */
  function GetAllFormCount(user: Option<User>): (r: Result<Query, ActionError>)
    ensures r.Success? <==> user.Some? && IsAdmin(user.value)
    ensures r.Success? ==> r.value == CountAll
    ensures r.Failure? ==> r.error == NotFound
  {
    if user.None? || user.value.role != "admin" then Failure(NotFound) else Success(CountAll)
  }

  /** One row of `groupBy(['userId', 'createdAt'])` with its `_count`. */
  datatype Group = Group(userId: string, createdAt: int, count: nat)

  /** One output entry: `{ _count: 0, createdAt: date }` or a copy of the chosen group. */
  datatype Bucket = NoForms(day: int) | Busiest(group: Group)

  /** `g` has the largest count in `gs`, and every group after it has a strictly smaller one. */
  predicate LastMaximal(gs: seq<Group>, g: Group) {
    && (forall x :: x in gs ==> x.count <= g.count)
    && exists i :: 0 <= i < |gs| && gs[i] == g && forall j :: i < j < |gs| ==> gs[j].count < g.count
  }

  /**
   * `reduce((a, b) => a._count > b._count ? a : b)`: the running choice is
   * replaced unless it is strictly larger, so the result has the largest
   * count and, among equal counts, is the last one.
   */
  function Reduce(gs: seq<Group>): (g: Group)
    requires |gs| > 0
    ensures g in gs
    ensures LastMaximal(gs, g)
  {
    if |gs| == 1 then
      assert LastMaximal(gs, gs[0]) by {
        assert gs == [gs[0]];
      }
      gs[0]
    else
      var init := gs[..|gs| - 1];
      var a, b := Reduce(init), gs[|gs| - 1];
      assert gs == init + [b];
      ExtendLastMaximal(init, a, b);
      if a.count > b.count then a else b
  }

  /** One more step of the fold keeps the running choice the last maximal group. */
  lemma ExtendLastMaximal(init: seq<Group>, a: Group, b: Group)
    requires a in init && LastMaximal(init, a)
    ensures var c := if a.count > b.count then a else b;
      c in init + [b] && LastMaximal(init + [b], c)
  {
    var gs := init + [b];
    if a.count > b.count {
      var i :| 0 <= i < |init| && init[i] == a && forall j :: i < j < |init| ==> init[j].count < a.count;
      assert gs[i] == a;
      forall j | i < j < |gs| ensures gs[j].count < a.count {
        if j < |init| {
          assert gs[j] == init[j];
        }
      }
    } else {
      assert gs[|gs| - 1] == b;
      forall x | x in gs ensures x.count <= b.count {
        if x != b {
          assert x in init;
        }
      }
    }
  }

  /** On equal counts the later group wins. */
  lemma TieGoesToLater(a: Group, b: Group)
    requires a.count == b.count
    ensures Reduce([a, b]) == b
  {
    assert [a, b][..1] == [a];
  }

  /** `forms.filter(({ createdAt }) => createdAt.getDate() === date.getDate())`, with `dayOfMonth` standing for `getDate`. */
  function Matching(groups: seq<Group>, day: int, dayOfMonth: int -> int): (r: seq<Group>)
    ensures |r| <= |groups|
    ensures forall g :: g in r <==> g in groups && dayOfMonth(g.createdAt) == dayOfMonth(day)
  {
    if |groups| == 0 then []
    else
      var rest := Matching(groups[1..], day, dayOfMonth);
      assert groups == [groups[0]] + groups[1..];
      if dayOfMonth(groups[0].createdAt) == dayOfMonth(day) then [groups[0]] + rest else rest
  }

  /** The filter keeps the rows' order: it works piecewise on a split list, so a later row stays later. */
  lemma {:induction false} MatchingSplits(a: seq<Group>, b: seq<Group>, day: int, dayOfMonth: int -> int)
    ensures Matching(a + b, day, dayOfMonth) == Matching(a, day, dayOfMonth) + Matching(b, day, dayOfMonth)
  {
    if a == [] {
      assert a + b == b;
    } else {
      assert (a + b)[1..] == a[1..] + b;
      MatchingSplits(a[1..], b, day, dayOfMonth);
    }
  }

  /** The entry for one day of the range. */
  function BucketFor(groups: seq<Group>, day: int, dayOfMonth: int -> int): (b: Bucket)
    ensures b.NoForms? <==> forall g :: g in groups ==> dayOfMonth(g.createdAt) != dayOfMonth(day)
    ensures b.NoForms? ==> b.day == day
    ensures b.Busiest? ==> b.group in groups && dayOfMonth(b.group.createdAt) == dayOfMonth(day)
    ensures b.Busiest? ==> forall g :: g in groups && dayOfMonth(g.createdAt) == dayOfMonth(day) ==> g.count <= b.group.count
    ensures b.Busiest? ==> LastMaximal(Matching(groups, day, dayOfMonth), b.group)
  {
    var exist := Matching(groups, day, dayOfMonth);
    if |exist| == 0 then NoForms(day)
    else
      assert exist[0] in exist;
      if |exist| > 1 then Busiest(Reduce(exist)) else Busiest(exist[0])
  }

  /** `dateRange.map(...)`: one entry per day, in order. */
  function BucketsFor(groups: seq<Group>, days: seq<int>, dayOfMonth: int -> int): (r: seq<Bucket>)
    ensures |r| == |days|
    ensures forall i :: 0 <= i < |days| ==> r[i] == BucketFor(groups, days[i], dayOfMonth)
  {
    if |days| == 0 then []
    else [BucketFor(groups, days[0], dayOfMonth)] + BucketsFor(groups, days[1..], dayOfMonth)
  }

  /**
   * `GetMostUserFormByDate` after the admin guard and the query: no groups
   * gives `null`, otherwise one entry per day of the range in order.
   */
  method GetMostUserFormByDate(user: Option<User>, startDate: int, endDate: int, groups: seq<Group>, dayOfMonth: int -> int)
    returns (r: Result<Option<seq<Bucket>>, ActionError>)
    ensures r.Failure? <==> user.None? || !IsAdmin(user.value)
    ensures r.Failure? ==> r.error == UserNotFound
    ensures r.Success? ==> (r.value.None? <==> |groups| == 0)
    ensures r.Success? && r.value.Some? ==> r.value.value == BucketsFor(groups, Utils.DayRange(startDate, endDate), dayOfMonth)
  {
    if user.None? || user.value.role != "admin" {
      return Failure(UserNotFound);
    }
    if |groups| <= 0 {
      return Success(None);
    }
    var dateRange := Utils.GetDates(startDate, endDate);
    var data := BucketsFor(groups, dateRange, dayOfMonth);
    return Success(Some(data));
  }
}
