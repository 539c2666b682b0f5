/**
  The simple form of every allocator here: a book of owners that changes by whole
  operations, one at a time.  The retry protocols of pkg/ipam and pkg/confman are
  proved to commit exactly such operations.
 */
module AtomicAllocator {

  /** Who a set bit belongs to: set from the start, taken by a call whose reply was lost, or held by a process. */
  datatype Owner = System | Lost | By(pid: nat)

  datatype Op<R> = Take(who: Owner, rs: set<R>) | Give(pid: nat, rs: set<R>)

  ghost function Owned<R(!new)>(book: map<R, Owner>, pid: nat): (rs: set<R>)
    ensures forall r :: r in rs <==> r in book && book[r] == By(pid)
  {
    set r | r in book && book[r] == By(pid)
  }

  /** Only free resources are taken, and only by somebody; only what the process holds is given back. */
  ghost predicate Legal<R(!new)>(book: map<R, Owner>, op: Op<R>) {
    match op
    case Take(who, rs) => rs !! book.Keys && who != System
    case Give(pid, rs) => rs <= Owned(book, pid)
  }

  ghost function Apply<R(!new)>(book: map<R, Owner>, op: Op<R>): (after: map<R, Owner>)
    ensures op.Take? ==> after.Keys == book.Keys + op.rs
    ensures op.Give? ==> after.Keys == book.Keys - op.rs
  {
    match op
    case Take(who, rs) => map r | r in book.Keys + rs :: if r in rs then who else book[r]
    case Give(pid, rs) => map r | r in book.Keys - rs :: book[r]
  }

  ghost function Replay<R(!new)>(book: map<R, Owner>, log: seq<Op<R>>): map<R, Owner> {
    if |log| == 0 then book else Apply(Replay(book, log[..|log| - 1]), log[|log| - 1])
  }

  ghost predicate LegalLog<R(!new)>(book: map<R, Owner>, log: seq<Op<R>>) {
    forall v :: 0 <= v < |log| ==> Legal(Replay(book, log[..v]), log[v])
  }

  lemma Append<R(!new)>(book: map<R, Owner>, log: seq<Op<R>>, op: Op<R>)
    requires LegalLog(book, log) && Legal(Replay(book, log), op)
    ensures Replay(book, log + [op]) == Apply(Replay(book, log), op)
    ensures forall v :: 0 <= v <= |log| ==> (log + [op])[..v] == log[..v]
    ensures LegalLog(book, log + [op])
  {
  }

  /** What an operation does to the holdings of each process. */
  lemma OwnedAfter<R(!new)>(book: map<R, Owner>, op: Op<R>, pid: nat)
    requires Legal(book, op)
    ensures Owned(Apply(book, op), pid) ==
      if op.Take? && op.who == By(pid) then Owned(book, pid) + op.rs
      else if op.Give? && op.pid == pid then Owned(book, pid) - op.rs
      else Owned(book, pid)
  {
  }

  // ---- what one process gives back ----

  ghost function GivenIn<R(!new)>(op: Op<R>, pid: nat): set<R> { if op.Give? && op.pid == pid then op.rs else {} }

  /** What a process gives back in the operations from number `start` on. */
  ghost function GivenSince<R(!new)>(log: seq<Op<R>>, start: nat, pid: nat): (given: set<R>)
    ensures forall r :: r in given <==> exists v :: start <= v < |log| && r in GivenIn(log[v], pid)
  {
    if |log| <= start then {}
    else
      var init := log[..|log| - 1];
      assert forall v :: 0 <= v < |init| ==> init[v] == log[v];
      GivenSince(init, start, pid) + GivenIn(log[|log| - 1], pid)
  }

  /** If nothing is given back after operation number `start`, what is given back from there on is what it gives. */
  lemma GivenOnce<R(!new)>(log: seq<Op<R>>, start: nat, pid: nat)
    requires start < |log| && forall v :: start < v < |log| ==> GivenIn(log[v], pid) == {}
    ensures GivenSince(log, start, pid) == GivenIn(log[start], pid)
  {
  }

  /** No operation from number `start` on takes anything for the process. */
  ghost predicate TakesNothing<R(!new)>(log: seq<Op<R>>, start: nat, pid: nat) {
    forall v :: start <= v < |log| ==> !(log[v].Take? && log[v].who == By(pid))
  }

  /** A process that takes nothing more gives back only what it owned, and owns what it has not given back. */
  lemma {:induction false} OwnedLessGiven<R(!new)>(book: map<R, Owner>, log: seq<Op<R>>, start: nat, pid: nat)
    requires LegalLog(book, log) && start <= |log| && TakesNothing(log, start, pid)
    ensures GivenSince(log, start, pid) <= Owned(Replay(book, log[..start]), pid)
    ensures Owned(Replay(book, log), pid) == Owned(Replay(book, log[..start]), pid) - GivenSince(log, start, pid)
  {
    hide Legal, Apply, Owned;
    if |log| == start {
      assert log[..start] == log;
    } else {
      var init, op := log[..|log| - 1], log[|log| - 1];
      assert forall v :: 0 <= v < |init| ==> init[..v] == log[..v] && init[v] == log[v];
      OwnedLessGiven(book, init, start, pid);
      assert init[..start] == log[..start];
      OwnedAfter(Replay(book, init), op, pid);
      GivesOwn(Replay(book, init), op, pid);
    }
  }

  lemma GivesOwn<R(!new)>(book: map<R, Owner>, op: Op<R>, pid: nat)
    requires Legal(book, op)
    ensures GivenIn(op, pid) <= Owned(book, pid)
  {
  }

  // ---- leaving one process out ----

  predicate IsOf<R>(op: Op<R>, pid: nat) {
    match op
    case Take(who, _) => who == By(pid)
    case Give(giver, _) => giver == pid
  }

  /** The operations of everybody but one process. */
  ghost function Others<R(!new)>(log: seq<Op<R>>, pid: nat): seq<Op<R>> {
    if |log| == 0 then []
    else
      var op := log[|log| - 1];
      Others(log[..|log| - 1], pid) + if IsOf(op, pid) then [] else [op]
  }

  ghost function Dropped<R(!new)>(book: map<R, Owner>, pid: nat): map<R, Owner> {
    map r | r in book && book[r] != By(pid) :: book[r]
  }

  lemma DropOwn<R(!new)>(book: map<R, Owner>, op: Op<R>, pid: nat)
    requires Legal(book, op) && IsOf(op, pid)
    ensures Dropped(Apply(book, op), pid) == Dropped(book, pid)
  {
  }

  lemma DropBeside<R(!new)>(book: map<R, Owner>, op: Op<R>, pid: nat)
    requires Legal(book, op) && !IsOf(op, pid)
    ensures Legal(Dropped(book, pid), op) && Dropped(Apply(book, op), pid) == Apply(Dropped(book, pid), op)
  {
  }

  /**
    Without the operations of a process the others' are legal all the same, and lead to the same
    book less what it owns.
   */
  lemma {:induction false} AsIfNeverThere<R(!new)>(book: map<R, Owner>, log: seq<Op<R>>, pid: nat)
    requires LegalLog(book, log) && Owned(book, pid) == {}
    ensures LegalLog(book, Others(log, pid))
    ensures Replay(book, Others(log, pid)) == Dropped(Replay(book, log), pid)
  {
    hide Legal, Apply;
    if |log| == 0 {
      forall r | r in book ensures book[r] != By(pid) {
        assert r !in Owned(book, pid);
      }
    } else {
      var init, op := log[..|log| - 1], log[|log| - 1];
      assert forall v :: 0 <= v < |init| ==> init[..v] == log[..v];
      AsIfNeverThere(book, init, pid);
      if IsOf(op, pid) {
        DropOwn(Replay(book, init), op, pid);
        assert Others(log, pid) == Others(init, pid);
      } else {
        DropBeside(Replay(book, init), op, pid);
        Append(book, Others(init, pid), op);
      }
    }
  }
}
