/** The list updaters of the task view: how one change turns the current list
    of todos into the next one. Every rule is keyed by `id`: prepend the row,
    replace the matching elements in place, or drop the matching elements. */
module Reconciler {
  import opened Todos

  /** `payload.eventType` of a change notification. */
  datatype EventType = Insert | Update | Delete | Other(name: string)

  /** A change notification: its type and its `new` and `old` records, either of which may be null. */
  datatype Payload = Payload(eventType: EventType, newRow: Option<Todo>, oldRow: Option<Todo>)

  /** `payload.new ?? payload.old`: the record the owner filter inspects. */
  function Chosen(p: Payload): Option<Todo>
  {
    if p.newRow.Some? then p.newRow else p.oldRow
  }

  /** The owner filter: the chosen record exists and belongs to `user`. */
  predicate Concerns(p: Payload, user: UserId)
  {
    Chosen(p).Some? && Chosen(p).value.userId == user
  }

  /** The record each event type dereferences is present. */
  predicate Delivered(p: Payload)
  {
    match p.eventType
    case Insert => p.newRow.Some?
    case Update => p.newRow.Some?
    case Delete => p.oldRow.Some?
    case Other(_) => true
  }

  predicate HasId(s: seq<Todo>, id: TodoId)
  {
    exists t :: t in s && t.id == id
  }

  /** How many elements of `s` carry `id`. */
  function CountId(s: seq<Todo>, id: TodoId): nat
  {
    if s == [] then 0 else (if s[0].id == id then 1 else 0) + CountId(s[1..], id)
  }

  /** No identifier occurs twice. */
  predicate DistinctIds(s: seq<Todo>)
  {
    forall i, j :: 0 <= i < j < |s| ==> s[i].id != s[j].id
  }

  /** Ordered by creation time, newest first (the order of the initial fetch). */
  predicate NewestFirst(s: seq<Todo>)
  {
    forall i, j :: 0 <= i < j < |s| ==> s[i].createdAt >= s[j].createdAt
  }

  /** `a` is `b` with some elements dropped and the rest in their original order. */
  ghost predicate SubsequenceOf(a: seq<Todo>, b: seq<Todo>)
    decreases |b|
  {
    a == [] || (b != [] && ((a[0] == b[0] && SubsequenceOf(a[1..], b[1..])) || SubsequenceOf(a, b[1..])))
  }

  /** `s.map(t => t.id === id ? row : t)` */
  function ReplaceById(s: seq<Todo>, id: TodoId, row: Todo): (r: seq<Todo>)
    ensures |r| == |s|
    ensures forall i :: 0 <= i < |s| ==> r[i] == if s[i].id == id then row else s[i]
    ensures !HasId(s, id) ==> r == s
  {
    if s == [] then [] else [if s[0].id == id then row else s[0]] + ReplaceById(s[1..], id, row)
  }

  /** `s.filter(t => t.id !== id)` */
  function RemoveById(s: seq<Todo>, id: TodoId): (r: seq<Todo>)
    ensures forall i :: 0 <= i < |r| ==> r[i].id != id
    ensures |r| == |s| - CountId(s, id)
  {
    if s == [] then [] else (if s[0].id == id then [] else [s[0]]) + RemoveById(s[1..], id)
  }

  /** The realtime updater: the owner filter, then one rule per event type. */
  function ApplyEvent(prev: seq<Todo>, user: UserId, p: Payload): (r: seq<Todo>)
    requires Concerns(p, user) ==> Delivered(p)
    ensures !Concerns(p, user) || p.eventType.Other? ==> r == prev
    ensures Concerns(p, user) && p.eventType == Insert ==>
              |r| == |prev| + 1 && r[0] == p.newRow.value && r[1..] == prev
    ensures Concerns(p, user) && p.eventType == Update ==>
              |r| == |prev| &&
              (forall i :: 0 <= i < |r| ==>
                 r[i] == if prev[i].id == p.newRow.value.id then p.newRow.value else prev[i])
    ensures Concerns(p, user) && p.eventType == Delete ==>
              (forall i :: 0 <= i < |r| ==> r[i].id != p.oldRow.value.id) &&
              |r| == |prev| - CountId(prev, p.oldRow.value.id)
  {
    if !Concerns(p, user) then prev
    else match p.eventType
      case Insert => [p.newRow.value] + prev
      case Update => ReplaceById(prev, p.newRow.value.id, p.newRow.value)
      case Delete => RemoveById(prev, p.oldRow.value.id)
      case Other(_) => prev
  }

  // ---------------------------------------------------------------------------
  // The list rules on their own

  lemma {:induction false} CountIdPositive(s: seq<Todo>, id: TodoId)
    ensures HasId(s, id) <==> CountId(s, id) > 0
  {
    if s != [] {
      CountIdPositive(s[1..], id);
      assert forall t :: t in s <==> t == s[0] || t in s[1..];
    }
  }

  /** Filtering by an id the list does not hold changes nothing. */
  lemma {:induction false} RemoveAbsent(s: seq<Todo>, id: TodoId)
    requires !HasId(s, id)
    ensures RemoveById(s, id) == s
  {
    if s != [] {
      assert s[0] in s;
      assert forall t :: t in s[1..] ==> t in s;
      RemoveAbsent(s[1..], id);
      assert s == [s[0]] + s[1..];
    }
  }

  lemma RemoveCons(x: Todo, s: seq<Todo>, id: TodoId)
    ensures RemoveById([x] + s, id) == (if x.id == id then [] else [x]) + RemoveById(s, id)
  {
    assert ([x] + s)[1..] == s;
  }

  lemma ReplaceCons(x: Todo, s: seq<Todo>, id: TodoId, row: Todo)
    ensures ReplaceById([x] + s, id, row) == [if x.id == id then row else x] + ReplaceById(s, id, row)
  {
    assert ([x] + s)[1..] == s;
  }

  /** Filtering keeps exactly the elements whose id differs. */
  lemma {:induction false} RemoveMembers(s: seq<Todo>, id: TodoId)
    ensures forall t :: t in RemoveById(s, id) <==> t in s && t.id != id
  {
    if s != [] {
      RemoveMembers(s[1..], id);
      assert s == [s[0]] + s[1..];
      assert forall t :: t in s <==> t == s[0] || t in s[1..];
    }
  }

  /** Filtering keeps the order of what it keeps. */
  lemma {:induction false} RemoveKeepsOrder(s: seq<Todo>, id: TodoId)
    ensures SubsequenceOf(RemoveById(s, id), s)
  {
    if s != [] {
      RemoveKeepsOrder(s[1..], id);
      var rest := RemoveById(s[1..], id);
      if s[0].id != id {
        var r := [s[0]] + rest;
        assert RemoveById(s, id) == r;
        assert r[0] == s[0] && r[1..] == rest;
      } else {
        assert RemoveById(s, id) == rest;
      }
    }
  }

  lemma Associative(p: seq<Todo>, q: seq<Todo>, r: seq<Todo>)
    ensures (p + q) + r == p + (q + r)
  {
  }

  /** Filtering a concatenation filters each part. */
  lemma {:induction false} RemoveDistributes(a: seq<Todo>, b: seq<Todo>, id: TodoId)
    ensures RemoveById(a + b, id) == RemoveById(a, id) + RemoveById(b, id)
  {
    if a == [] {
      assert a + b == b;
    } else {
      var x, tail := a[0], a[1..];
      assert a == [x] + tail;
      RemoveDistributes(tail, b, id);
      Associative([x], tail, b);
      RemoveCons(x, tail + b, id);
      RemoveCons(x, tail, id);
      var h: seq<Todo> := if x.id == id then [] else [x];
      Associative(h, RemoveById(tail, id), RemoveById(b, id));
    }
  }

  /** Replacing twice by the same rule is replacing once. */
  lemma {:induction false} ReplaceTwice(s: seq<Todo>, id: TodoId, row: Todo)
    ensures ReplaceById(ReplaceById(s, id, row), id, row) == ReplaceById(s, id, row)
  {
    if s != [] {
      ReplaceTwice(s[1..], id, row);
      var r := ReplaceById(s, id, row);
      assert r[1..] == ReplaceById(s[1..], id, row);
    }
  }

  /** Filtering twice by the same id is filtering once. */
  lemma {:induction false} RemoveTwice(s: seq<Todo>, id: TodoId)
    ensures RemoveById(RemoveById(s, id), id) == RemoveById(s, id)
  {
    if s != [] {
      RemoveTwice(s[1..], id);
      var rest := RemoveById(s[1..], id);
      if s[0].id == id {
        assert RemoveById(s, id) == rest;
      } else {
        assert RemoveById(s, id) == [s[0]] + rest;
        RemoveCons(s[0], rest, id);
      }
    }
  }

  /** Replacing by one id and filtering by another (or the same one, when the
      replacement row keeps that id) can be done in either order. */
  lemma {:induction false} ReplaceRemoveCommute(s: seq<Todo>, a: TodoId, row: Todo, b: TodoId)
    requires row.id == a
    ensures RemoveById(ReplaceById(s, a, row), b) == ReplaceById(RemoveById(s, b), a, row)
  {
    if s != [] {
      var x, tail := s[0], s[1..];
      ReplaceRemoveCommute(tail, a, row, b);
      var y := if x.id == a then row else x;
      var replaced, removed := ReplaceById(tail, a, row), RemoveById(tail, b);
      assert ReplaceById(s, a, row) == [y] + replaced;
      RemoveCons(y, replaced, b);
      if x.id == b {
        assert RemoveById(s, b) == removed;
      } else {
        assert RemoveById(s, b) == [x] + removed;
        ReplaceCons(x, removed, a, row);
      }
    }
  }

  /** Replacements for two different ids can be done in either order. */
  lemma ReplacesCommute(s: seq<Todo>, a: TodoId, x: Todo, b: TodoId, y: Todo)
    requires x.id == a && y.id == b && a != b
    ensures ReplaceById(ReplaceById(s, a, x), b, y) == ReplaceById(ReplaceById(s, b, y), a, x)
  {
    var sa, sb := ReplaceById(s, a, x), ReplaceById(s, b, y);
    var l, r := ReplaceById(sa, b, y), ReplaceById(sb, a, x);
    forall i | 0 <= i < |s| ensures l[i] == r[i] {
      assert l[i] == if sa[i].id == b then y else sa[i];
      assert r[i] == if sb[i].id == a then x else sb[i];
    }
  }

  /** Filters by two ids can be done in either order. */
  lemma {:induction false} RemovesCommute(s: seq<Todo>, a: TodoId, b: TodoId)
    ensures RemoveById(RemoveById(s, a), b) == RemoveById(RemoveById(s, b), a)
  {
    if s != [] {
      RemovesCommute(s[1..], a, b);
      var x, tail := s[0], s[1..];
      var ra, rb := RemoveById(tail, a), RemoveById(tail, b);
      if x.id == a {
        assert RemoveById(s, a) == ra;
      } else {
        assert RemoveById(s, a) == [x] + ra;
        RemoveCons(x, ra, b);
      }
      if x.id == b {
        assert RemoveById(s, b) == rb;
      } else {
        assert RemoveById(s, b) == [x] + rb;
        RemoveCons(x, rb, a);
      }
    }
  }

  // ---------------------------------------------------------------------------
  // Invariants of the list: identifiers and order

  /** Replacing by a row that keeps the id keeps the ids distinct. */
  lemma ReplaceKeepsDistinct(s: seq<Todo>, id: TodoId, row: Todo)
    requires row.id == id && DistinctIds(s)
    ensures DistinctIds(ReplaceById(s, id, row))
  {
    var r := ReplaceById(s, id, row);
    assert forall i :: 0 <= i < |s| ==> r[i].id == s[i].id;
  }

  /** Filtering keeps the ids distinct. */
  lemma {:induction false} RemoveKeepsDistinct(s: seq<Todo>, id: TodoId)
    requires DistinctIds(s)
    ensures DistinctIds(RemoveById(s, id))
  {
    if s != [] {
      var tail := s[1..];
      assert DistinctIds(tail) by {
        forall i, j | 0 <= i < j < |tail| ensures tail[i].id != tail[j].id {
          assert tail[i] == s[i + 1] && tail[j] == s[j + 1];
        }
      }
      RemoveKeepsDistinct(tail, id);
      if s[0].id != id {
        PrependDistinct(RemoveById(tail, id), s[0]);
        RemoveMembers(tail, id);
        PrependDistinct(tail, s[0]);
        assert s == [s[0]] + tail;
      }
    }
  }

  /** Prepending keeps the ids distinct exactly when the row's id is new to the list. */
  lemma PrependDistinct(s: seq<Todo>, row: Todo)
    ensures DistinctIds([row] + s) <==> DistinctIds(s) && !HasId(s, row.id)
  {
    var r := [row] + s;
    assert r[0] == row;
    assert forall i :: 0 <= i < |s| ==> r[i + 1] == s[i];
    if DistinctIds(r) {
      forall t | t in s ensures t.id != row.id {
        var k :| 0 <= k < |s| && s[k] == t;
        assert r[k + 1] == t;
        assert r[0].id != r[k + 1].id;
      }
      forall i, j | 0 <= i < j < |s| ensures s[i].id != s[j].id {
        assert r[i + 1] == s[i] && r[j + 1] == s[j];
      }
    }
    if DistinctIds(s) && !HasId(s, row.id) {
      forall i, j | 0 <= i < j < |r| ensures r[i].id != r[j].id {
        assert r[j] == s[j - 1] && s[j - 1] in s;
        if i > 0 {
          assert r[i] == s[i - 1];
        }
      }
    }
  }

  /** A newest-first list is its head followed by a newest-first tail no newer than the head. */
  lemma NewestFirstCons(x: Todo, s: seq<Todo>)
    ensures NewestFirst([x] + s) <==> NewestFirst(s) && forall t :: t in s ==> t.createdAt <= x.createdAt
  {
    var r := [x] + s;
    assert r[0] == x;
    assert forall i :: 0 <= i < |s| ==> r[i + 1] == s[i];
    if NewestFirst(r) {
      forall t | t in s ensures t.createdAt <= x.createdAt {
        var k :| 0 <= k < |s| && s[k] == t;
        assert r[k + 1] == t;
      }
      forall i, j | 0 <= i < j < |s| ensures s[i].createdAt >= s[j].createdAt {
        assert r[i + 1] == s[i] && r[j + 1] == s[j];
      }
    }
  }

  /** Filtering keeps newest-first order. */
  lemma {:induction false} RemoveKeepsNewestFirst(s: seq<Todo>, id: TodoId)
    requires NewestFirst(s)
    ensures NewestFirst(RemoveById(s, id))
  {
    if s != [] {
      var x, tail := s[0], s[1..];
      assert s == [x] + tail;
      NewestFirstCons(x, tail);
      RemoveKeepsNewestFirst(tail, id);
      var rest := RemoveById(tail, id);
      if x.id != id {
        RemoveMembers(tail, id);
        NewestFirstCons(x, rest);
        assert RemoveById(s, id) == [x] + rest;
      } else {
        assert RemoveById(s, id) == rest;
      }
    }
  }

  /** Replacing by a row with the replaced rows' creation time keeps newest-first order. */
  lemma ReplaceKeepsNewestFirst(s: seq<Todo>, id: TodoId, row: Todo)
    requires NewestFirst(s)
    requires forall t :: t in s && t.id == id ==> t.createdAt == row.createdAt
    ensures NewestFirst(ReplaceById(s, id, row))
  {
    var r := ReplaceById(s, id, row);
    assert forall i :: 0 <= i < |s| ==> r[i].createdAt == s[i].createdAt;
  }

  // ---------------------------------------------------------------------------
  // The realtime updater

  /** Applying the same UPDATE twice gives the list applying it once gives. */
  lemma UpdateIdempotent(prev: seq<Todo>, user: UserId, p: Payload)
    requires p.eventType == Update && (Concerns(p, user) ==> Delivered(p))
    ensures ApplyEvent(ApplyEvent(prev, user, p), user, p) == ApplyEvent(prev, user, p)
  {
    if Concerns(p, user) {
      ReplaceTwice(prev, p.newRow.value.id, p.newRow.value);
    }
  }

  /** Applying the same DELETE twice gives the list applying it once gives. */
  lemma DeleteIdempotent(prev: seq<Todo>, user: UserId, p: Payload)
    requires p.eventType == Delete && (Concerns(p, user) ==> Delivered(p))
    ensures ApplyEvent(ApplyEvent(prev, user, p), user, p) == ApplyEvent(prev, user, p)
  {
    if Concerns(p, user) {
      RemoveTwice(prev, p.oldRow.value.id);
    }
  }

  /** INSERT is not idempotent: applying an accepted INSERT twice adds the row twice. */
  lemma InsertTwiceDuplicates(prev: seq<Todo>, user: UserId, p: Payload)
    requires p.eventType == Insert && Concerns(p, user) && Delivered(p)
    ensures var twice := ApplyEvent(ApplyEvent(prev, user, p), user, p);
            twice == [p.newRow.value, p.newRow.value] + prev &&
            CountId(twice, p.newRow.value.id) == CountId(prev, p.newRow.value.id) + 2 &&
            !DistinctIds(twice)
  {
    var x := p.newRow.value;
    var twice := ApplyEvent(ApplyEvent(prev, user, p), user, p);
    assert twice == [x, x] + prev;
    assert twice[1..] == [x] + prev && twice[2..] == prev;
    assert twice[0].id == twice[1].id;
  }

  /** A row added through a create call and then echoed by its own INSERT
      event ends up in the list twice. */
  lemma EchoedAddDuplicates(prev: seq<Todo>, user: UserId, created: Todo)
    requires created.userId == user
    ensures var echo := Payload(Insert, Some(created), None);
            var r := ApplyEvent([created] + prev, user, echo);
            r == [created, created] + prev && !DistinctIds(r)
  {
    var r := ApplyEvent([created] + prev, user, Payload(Insert, Some(created), None));
    assert r == [created, created] + prev;
    assert r[0].id == r[1].id;
  }

  /** An UPDATE leaves the list as it was exactly when every element with the
      row's id already equals the row; in particular, an UPDATE for an id the
      list does not hold is dropped: there is no fallback insert. */
  lemma UpdateUnchangedIff(prev: seq<Todo>, user: UserId, p: Payload)
    requires p.eventType == Update && Concerns(p, user) && Delivered(p)
    ensures ApplyEvent(prev, user, p) == prev <==>
            forall t :: t in prev && t.id == p.newRow.value.id ==> t == p.newRow.value
    ensures !HasId(prev, p.newRow.value.id) ==> ApplyEvent(prev, user, p) == prev
  {
    var x := p.newRow.value;
    var r := ApplyEvent(prev, user, p);
    if r == prev {
      forall t | t in prev && t.id == x.id ensures t == x {
        var k :| 0 <= k < |prev| && prev[k] == t;
        assert r[k] == x;
      }
    }
  }

  /** An accepted DELETE keeps exactly the elements with another id, in their original order. */
  lemma DeleteKeepsOthersInOrder(prev: seq<Todo>, user: UserId, p: Payload)
    requires p.eventType == Delete && Concerns(p, user) && Delivered(p)
    ensures forall t :: t in ApplyEvent(prev, user, p) <==> t in prev && t.id != p.oldRow.value.id
    ensures SubsequenceOf(ApplyEvent(prev, user, p), prev)
  {
    RemoveMembers(prev, p.oldRow.value.id);
    RemoveKeepsOrder(prev, p.oldRow.value.id);
  }

  /** A DELETE for an id the list does not hold changes nothing. */
  lemma DeleteOfUnknownIdNoOp(prev: seq<Todo>, user: UserId, p: Payload)
    requires p.eventType == Delete && Delivered(p) && !HasId(prev, p.oldRow.value.id)
    ensures ApplyEvent(prev, user, p) == prev
  {
    RemoveAbsent(prev, p.oldRow.value.id);
  }

  /** An UPDATE and a DELETE, for any two ids, give the same list in either order. */
  lemma UpdateDeleteCommute(s: seq<Todo>, user: UserId, u: Payload, d: Payload)
    requires u.eventType == Update && (Concerns(u, user) ==> Delivered(u))
    requires d.eventType == Delete && (Concerns(d, user) ==> Delivered(d))
    ensures ApplyEvent(ApplyEvent(s, user, u), user, d) == ApplyEvent(ApplyEvent(s, user, d), user, u)
  {
    if Concerns(u, user) && Concerns(d, user) {
      ReplaceRemoveCommute(s, u.newRow.value.id, u.newRow.value, d.oldRow.value.id);
    }
  }

  /** Two UPDATEs for different ids give the same list in either order. */
  lemma UpdatesCommute(s: seq<Todo>, user: UserId, u: Payload, v: Payload)
    requires u.eventType == Update && Concerns(u, user) && Delivered(u)
    requires v.eventType == Update && Concerns(v, user) && Delivered(v)
    requires u.newRow.value.id != v.newRow.value.id
    ensures ApplyEvent(ApplyEvent(s, user, u), user, v) == ApplyEvent(ApplyEvent(s, user, v), user, u)
  {
    ReplacesCommute(s, u.newRow.value.id, u.newRow.value, v.newRow.value.id, v.newRow.value);
  }

  /** Two DELETEs give the same list in either order. */
  lemma DeletesCommute(s: seq<Todo>, user: UserId, d: Payload, e: Payload)
    requires d.eventType == Delete && (Concerns(d, user) ==> Delivered(d))
    requires e.eventType == Delete && (Concerns(e, user) ==> Delivered(e))
    ensures ApplyEvent(ApplyEvent(s, user, d), user, e) == ApplyEvent(ApplyEvent(s, user, e), user, d)
  {
    if Concerns(d, user) && Concerns(e, user) {
      RemovesCommute(s, d.oldRow.value.id, e.oldRow.value.id);
    }
  }

  /** An INSERT and a DELETE of the same row do not commute: delete-then-insert
      keeps the row, insert-then-delete loses it. */
  lemma InsertDeleteOrderMatters(s: seq<Todo>, user: UserId, x: Todo)
    requires x.userId == user
    ensures var ins := Payload(Insert, Some(x), None);
            var del := Payload(Delete, None, Some(x));
            x in ApplyEvent(ApplyEvent(s, user, del), user, ins) &&
            x !in ApplyEvent(ApplyEvent(s, user, ins), user, del)
  {
  }

  /** An UPDATE applied to the still-empty list changes nothing, while the same
      UPDATE applied to fetched rows that hold an older version of its row
      changes them and leaves the updated row in the list. */
  lemma UpdateBeforeLoadLost(fetched: seq<Todo>, user: UserId, p: Payload)
    requires p.eventType == Update && Concerns(p, user) && Delivered(p)
    requires HasId(fetched, p.newRow.value.id) && p.newRow.value !in fetched
    ensures ApplyEvent([], user, p) == []
    ensures p.newRow.value in ApplyEvent(fetched, user, p)
    ensures ApplyEvent(fetched, user, p) != fetched
  {
    var x := p.newRow.value;
    var k :| 0 <= k < |fetched| && fetched[k].id == x.id;
    assert ApplyEvent(fetched, user, p)[k] == x;
  }

  /** The owner filter looks at `new` whenever `new` is present: a DELETE whose
      `new` record belongs to someone else is ignored even if its `old` record is the user's. */
  /** The owner filter reads the `new` record when there is one and the `old`
      record otherwise. */
  lemma ConcernsIff(p: Payload, user: UserId)
    ensures Concerns(p, user) <==>
              (p.newRow.Some? && p.newRow.value.userId == user) ||
              (p.newRow.None? && p.oldRow.Some? && p.oldRow.value.userId == user)
  {
  }

  lemma FilterPrefersNew(prev: seq<Todo>, user: UserId, p: Payload)
    requires p.newRow.Some? && p.newRow.value.userId != user
    ensures ApplyEvent(prev, user, p) == prev
  {
  }
}
