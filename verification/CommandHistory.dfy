/**
The bounded command history of the gateway: retained entries by ID, the queue of their IDs in
order of acceptance, and the rotating trim, proved against a one-pass specification.
*/
module CommandHistory {
  import opened Wrappers

  // A retained command. The token identifies the accepted request; a command ID may be used
  // again after its entry was trimmed or the session was reset.
  datatype Entry = Entry(token: nat, fingerprint: string, stop: bool)

  // What the trim may not take: commands still running, and the one that owns the exclusive slot.
  predicate Removable(entries: map<string, Entry>, completed: set<nat>, exclusive: Option<string>, id: string) {
    id in entries && entries[id].token in completed && exclusive != Some(id)
  }

  predicate NoDuplicates(order: seq<string>) {
    forall i, j :: 0 <= i < j < |order| ==> order[i] != order[j]
  }

  // The queue lists exactly the retained IDs, each once.
  ghost predicate Consistent(entries: map<string, Entry>, order: seq<string>) {
    NoDuplicates(order) && forall id :: id in order <==> id in entries
  }

  // ---------------------------------------------------------------- the specification

  // The queue without its first k removable IDs; the rest keeps its order.
  function DropOldest(order: seq<string>, removable: string -> bool, k: nat): seq<string> {
    if order == [] then []
    else if k > 0 && removable(order[0]) then DropOldest(order[1..], removable, k - 1)
    else [order[0]] + DropOldest(order[1..], removable, k)
  }

  function Excess(n: nat, capacity: nat): nat {
    if n > capacity then n - capacity else 0
  }

  function CountRemovable(order: seq<string>, removable: string -> bool): nat {
    if order == [] then 0
    else (if removable(order[0]) then 1 else 0) + CountRemovable(order[1..], removable)
  }

  // Trimming drops the oldest removable IDs until the rest fits or none is removable.
  function Trimmed(order: seq<string>, removable: string -> bool, capacity: nat): seq<string> {
    DropOldest(order, removable, Excess(|order|, capacity))
  }

  function Restrict(entries: map<string, Entry>, order: seq<string>): map<string, Entry> {
    map id | id in entries && id in order :: entries[id]
  }

  // ---------------------------------------------------------------- facts about the specification

  lemma {:induction false} DropOldestKeeps(order: seq<string>, removable: string -> bool, k: nat)
    ensures var rest := DropOldest(order, removable, k);
      && (forall id :: id in rest ==> id in order)
      && (forall id :: id in order && !removable(id) ==> id in rest)
    decreases |order|
  {
    if order != [] {
      DropOldestKeeps(order[1..], removable, if k > 0 && removable(order[0]) then k - 1 else k);
      assert forall id :: id in order <==> id == order[0] || id in order[1..];
    }
  }

  lemma {:induction false} DropOldestKeepsDistinct(order: seq<string>, removable: string -> bool, k: nat)
    requires NoDuplicates(order)
    ensures NoDuplicates(DropOldest(order, removable, k))
    decreases |order|
  {
    if order != [] {
      var k' := if k > 0 && removable(order[0]) then k - 1 else k;
      DropOldestKeepsDistinct(order[1..], removable, k');
      DropOldestKeeps(order[1..], removable, k');
      assert order[0] !in order[1..];
    }
  }

  // Exactly min(k, number of removable IDs) IDs go.
  lemma {:induction false} DropOldestCounts(order: seq<string>, removable: string -> bool, k: nat)
    ensures var n := CountRemovable(order, removable);
      |DropOldest(order, removable, k)| == |order| - (if k < n then k else n)
    decreases |order|
  {
    if order != [] {
      DropOldestCounts(order[1..], removable, if k > 0 && removable(order[0]) then k - 1 else k);
    }
  }

  // After a trim the history fits, unless nothing more can be removed.
  lemma TrimmedFitsOrIsStuck(order: seq<string>, removable: string -> bool, capacity: nat)
    ensures var rest := Trimmed(order, removable, capacity);
      && (|rest| <= capacity <==> |order| - CountRemovable(order, removable) <= capacity)
      && (|rest| > capacity ==> forall id :: id in rest ==> !removable(id))
      && (|order| <= capacity ==> rest == order)
  {
    var k := Excess(|order|, capacity);
    DropOldestCounts(order, removable, k);
    if k >= CountRemovable(order, removable) {
      AllRemoved(order, removable, k);
    }
    if k == 0 {
      NothingDropped(order, removable);
    }
  }

  lemma {:induction false} AllRemoved(order: seq<string>, removable: string -> bool, k: nat)
    requires k >= CountRemovable(order, removable)
    ensures forall id :: id in DropOldest(order, removable, k) ==> !removable(id)
    decreases |order|
  {
    if order != [] {
      AllRemoved(order[1..], removable, if removable(order[0]) then k - 1 else k);
    }
  }

  lemma {:induction false} NothingDropped(order: seq<string>, removable: string -> bool)
    ensures DropOldest(order, removable, 0) == order
    decreases |order|
  {
    if order != [] {
      NothingDropped(order[1..], removable);
    }
  }

  // Of two removable IDs the trim never keeps the older and drops the younger.
  lemma {:induction false} OlderGoesFirst(order: seq<string>, removable: string -> bool, k: nat, i: nat, j: nat)
    requires NoDuplicates(order) && i < j < |order| && removable(order[i]) && removable(order[j])
    requires order[i] in DropOldest(order, removable, k)
    ensures order[j] in DropOldest(order, removable, k)
    decreases |order|
  {
    var rest := order[1..];
    assert order[0] !in rest;
    if i > 0 {
      OlderGoesFirst(rest, removable, if k > 0 && removable(order[0]) then k - 1 else k, i - 1, j - 1);
    } else {
      DropOldestKeeps(rest, removable, k - if k > 0 then 1 else 0);
      if k == 0 {
        NothingDropped(rest, removable);
        assert order[j] == rest[j - 1];
      }
    }
  }

  // ---------------------------------------------------------------- the rotating trim

  // One rotation of the queue takes out the first removable ID.
  function FirstRemovable(order: seq<string>, removable: string -> bool): Option<string> {
    if order == [] then None
    else if removable(order[0]) then Some(order[0])
    else FirstRemovable(order[1..], removable)
  }

  lemma {:induction false} OneThenMore(order: seq<string>, removable: string -> bool, k: nat)
    ensures DropOldest(DropOldest(order, removable, 1), removable, k) == DropOldest(order, removable, k + 1)
    decreases |order|
  {
    if order != [] {
      if removable(order[0]) {
        NothingDropped(order[1..], removable);
      } else {
        OneThenMore(order[1..], removable, k);
        var rest := DropOldest(order[1..], removable, 1);
        assert DropOldest(order, removable, 1) == [order[0]] + rest;
        assert ([order[0]] + rest)[1..] == rest;
      }
    }
  }

  lemma {:induction false} DropOneOrNone(order: seq<string>, removable: string -> bool)
    requires NoDuplicates(order)
    ensures match FirstRemovable(order, removable)
      case None => DropOldest(order, removable, 1) == order && forall id :: id in order ==> !removable(id)
      case Some(id) =>
        id in order && removable(id)
        && |DropOldest(order, removable, 1)| == |order| - 1
        && forall x :: x in DropOldest(order, removable, 1) <==> x in order && x != id
    decreases |order|
  {
    if order != [] {
      var rest := order[1..];
      assert order[0] !in rest;
      if removable(order[0]) {
        NothingDropped(rest, removable);
      } else {
        DropOneOrNone(rest, removable);
      }
    }
  }

  // Turning one ID of the queue over: it goes to the back unless it is the one taken out.
  lemma {:induction false} TurnOver(front: seq<string>, x: string, removable: string -> bool)
    ensures FirstRemovable(front + [x], removable)
         == if FirstRemovable(front, removable).Some? then FirstRemovable(front, removable)
            else if removable(x) then Some(x) else None
    ensures DropOldest(front + [x], removable, 1)
         == if FirstRemovable(front, removable).None? && removable(x) then front
            else DropOldest(front, removable, 1) + [x]
    decreases |front|
  {
    if front == [] {
      assert front + [x] == [x];
    } else {
      assert (front + [x])[1..] == front[1..] + [x];
      if removable(front[0]) {
        NothingDropped(front[1..], removable);
        NothingDropped(front[1..] + [x], removable);
      } else {
        TurnOver(front[1..], x, removable);
        assert FirstRemovable(front, removable) == FirstRemovable(front[1..], removable);
      }
    }
  }

  lemma {:induction false} SameDecisions(order: seq<string>, f: string -> bool, g: string -> bool, k: nat)
    requires forall id :: id in order ==> f(id) == g(id)
    ensures DropOldest(order, f, k) == DropOldest(order, g, k)
    decreases |order|
  {
    if order != [] {
      SameDecisions(order[1..], f, g, if k > 0 && f(order[0]) then k - 1 else k);
    }
  }

  lemma {:induction false} SizesAgree(entries: map<string, Entry>, order: seq<string>)
    requires Consistent(entries, order)
    ensures |entries| == |order|
    decreases |order|
  {
    if order == [] {
      assert entries.Keys == {};
    } else {
      var id := order[0];
      assert id !in order[1..];
      assert forall x :: x in order <==> x == id || x in order[1..];
      SizesAgree(entries - {id}, order[1..]);
      assert entries.Keys == (entries - {id}).Keys + {id};
    }
  }

  class History {
    var entries: map<string, Entry>
    var order: seq<string>
    var exclusive: Option<string>
    var completed: set<nat>
    const capacity: nat

    ghost function CanGo(): string -> bool
      reads this
    {
      var e, c, x := entries, completed, exclusive;
      id => Removable(e, c, x, id)
    }

    constructor (capacity: nat)
      ensures entries == map[] && order == [] && exclusive == None && completed == {} && this.capacity == capacity
    {
      entries, order, exclusive, completed := map[], [], None, {};
      this.capacity := capacity;
    }

    // One turn of the queue: every ID is taken from the front and put back, but for the first
    // removable one.
    method Rotate(ghost removable: string -> bool) returns (removableId: Option<string>)
      requires forall id :: id in order ==> removable(id) == Removable(entries, completed, exclusive, id)
      modifies this`order
      ensures removableId == FirstRemovable(old(order), removable)
      ensures order == DropOldest(old(order), removable, 1)
    {
      ghost var before := order;
      removableId := None;
      for index := 0 to |order|
        invariant removableId == FirstRemovable(before[..index], removable)
        invariant order == before[index..] + DropOldest(before[..index], removable, 1)
      {
        var candidate := order[0];
        assert candidate == before[index];
        assert before[..index + 1] == before[..index] + [candidate];
        assert order[1..] == before[index + 1..] + DropOldest(before[..index], removable, 1);
        TurnOver(before[..index], candidate, removable);
        FirstOrNothing(before[..index], removable);
        order := order[1..];
        var canRemove := removableId.None? && candidate in entries && entries[candidate].token in completed
                         && exclusive != Some(candidate);
        if canRemove {
          removableId := Some(candidate);
        } else {
          order := order + [candidate];
        }
      }
      assert before[..|before|] == before;
    }

    // One round of the trim: the oldest removable entry goes, if there is one.
    method RemoveOldest(ghost removable: string -> bool) returns (removed: bool)
      requires Consistent(entries, order)
      requires forall id :: id in order ==> removable(id) == Removable(entries, completed, exclusive, id)
      modifies this`order, this`entries
      ensures Consistent(entries, order) && order == DropOldest(old(order), removable, 1)
      ensures entries == Restrict(old(entries), order)
      ensures removed == FirstRemovable(old(order), removable).Some?
      ensures removed ==> |order| == |old(order)| - 1
      ensures !removed ==> order == old(order) && forall id :: id in order ==> !removable(id)
    {
      DropOneOrNone(order, removable);
      DropOldestKeepsDistinct(order, removable, 1);
      var removableId := Rotate(removable);
      removed := removableId.Some?;
      if removed {
        entries := entries - {removableId.value};
      }
    }

    // One round of an over-full history, seen from the trim as a whole.
    method TrimRound(ghost removable: string -> bool) returns (removed: bool)
      requires Consistent(entries, order) && |order| > capacity
      requires forall id :: id in order ==> removable(id) == Removable(entries, completed, exclusive, id)
      modifies this`order, this`entries
      ensures Consistent(entries, order) && |entries| == |order| && entries == Restrict(old(entries), order)
      ensures Trimmed(order, removable, capacity) == Trimmed(old(order), removable, capacity)
      ensures if removed then |order| < |old(order)| else Trimmed(order, removable, capacity) == order
    {
      TrimOneThenMore(order, removable, capacity);
      removed := RemoveOldest(removable);
      SizesAgree(entries, order);
      if !removed {
        StuckStays(order, removable, Excess(|order|, capacity));
      }
    }

    // The history is trimmed as specified: the oldest removable entries go until it fits or none
    // is removable, and the rest keeps its order.
    method TrimCommandHistory()
      requires Consistent(entries, order)
      modifies this`order, this`entries
      ensures order == Trimmed(old(order), old(CanGo()), capacity)
      ensures entries == Restrict(old(entries), order) && Consistent(entries, order)
    {
      ghost var removable := CanGo();
      SizesAgree(entries, order);
      while |entries| > capacity && |order| > 0
        invariant Consistent(entries, order) && |entries| == |order| && entries == Restrict(old(entries), order)
        invariant Trimmed(order, removable, capacity) == Trimmed(old(order), removable, capacity)
        decreases |order|
      {
        var removed := TrimRound(removable);
        if !removed {
          return;
        }
      }
      NothingDropped(order, removable);
    }
  }

  lemma TrimOneThenMore(order: seq<string>, removable: string -> bool, capacity: nat)
    requires |order| > capacity
    ensures var rest := DropOldest(order, removable, 1);
      |rest| == |order| - 1 ==> Trimmed(rest, removable, capacity) == Trimmed(order, removable, capacity)
  {
    OneThenMore(order, removable, Excess(|order|, capacity) - 1);
  }

  lemma {:induction false} StuckStays(order: seq<string>, removable: string -> bool, k: nat)
    requires forall id :: id in order ==> !removable(id)
    ensures DropOldest(order, removable, k) == order
    decreases |order|
  {
    if order != [] {
      StuckStays(order[1..], removable, k);
    }
  }

  lemma {:induction false} FirstOrNothing(order: seq<string>, removable: string -> bool)
    ensures FirstRemovable(order, removable).None? ==> DropOldest(order, removable, 1) == order
    decreases |order|
  {
    if order != [] {
      FirstOrNothing(order[1..], removable);
    }
  }
}
