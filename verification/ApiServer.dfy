/**
  One object on the API server as a client sees it: a value with a version that an update
  must carry.  Updates of other writers arrive before any of our calls is served.
 */
module ApiServer {
  import opened Wrappers

  /** An error says nothing about whether the update was accepted. */
  datatype Reply = Accepted | Conflict | Error

  class Cell<V(!new), H(!new)> {
    var version: nat
    var value: V
    /** What this client holds of the object. */
    var held: Option<H>
    /** Updates of other writers that have not arrived yet.  Whatever they write, they leave alone what is held. */
    var foreign: seq<(V, Option<H>) -> V>
    /** All values the object has had, and which of those versions we wrote. */
    ghost var hist: seq<V>
    ghost var own: set<nat>
    /** How many of our calls ended in an error. */
    ghost var errors: nat
    /** What every writer keeps true of the value, and when a value shows something that is held. */
    ghost const ok: V -> bool
    ghost const shows: (V, H) -> bool

    constructor (value: V, foreign: seq<(V, Option<H>) -> V>, ghost ok: V -> bool, ghost shows: (V, H) -> bool)
      requires ok(value) && forall f, x, h :: f in foreign && ok(x) ==> ok(f(x, h))
      requires forall f, x, h :: f in foreign && ok(x) && shows(x, h) ==> shows(f(x, Some(h)), h)
      ensures Valid() && hist == [value] && own == {} && held == None && errors == 0
      ensures this.foreign == foreign && this.ok == ok && this.shows == shows
    {
      this.version, this.value, this.held, this.foreign := 0, value, None, foreign;
      this.hist, this.own, this.errors, this.ok, this.shows := [value], {}, 0, ok, shows;
    }

    ghost predicate Valid()
      reads this
    {
      && |hist| == version + 1 && hist[version] == value
      && (forall v :: 0 <= v < |hist| ==> ok(hist[v])) && (forall v :: v in own ==> v <= version)
      && (held.Some? ==> shows(value, held.value))
      && (forall f, x, h :: f in foreign && ok(x) ==> ok(f(x, h)))
      && (forall f, x, h :: f in foreign && ok(x) && shows(x, h) ==> shows(f(x, Some(h)), h))
    }

    ghost predicate Knows(ver: nat, copy: V)
      reads this
    {
      ver < |hist| && hist[ver] == copy
    }

    /** Any number of foreign updates arrive. */
    method Arrive()
      requires Valid()
      modifies this
      ensures Valid() && old(hist) <= hist && own == old(own) && held == old(held) && errors == old(errors)
      ensures |foreign| + version == old(|foreign| + version)
    {
      var n :| 0 <= n <= |foreign|;
      ghost var total := |foreign| + version;
      while n > 0
        invariant Valid() && old(hist) <= hist && own == old(own) && held == old(held) && errors == old(errors)
        invariant n <= |foreign| && |foreign| + version == total
      {
        assert foreign[0] in foreign;
        assert held.Some? ==> shows(foreign[0](value, Some(held.value)), held.value) && held == Some(held.value);
        value := foreign[0](value, held);
        version := version + 1;
        hist := hist + [value];
        foreign := foreign[1..];
        n := n - 1;
      }
    }

    /** The latest value, which shows what is held. */
    method Get() returns (ver: nat, copy: V)
      requires Valid()
      modifies this
      ensures Valid() && old(hist) <= hist && own == old(own) && held == old(held) && errors == old(errors)
      ensures |foreign| + version == old(|foreign| + version)
      ensures ver == version && copy == value
    {
      Arrive();
      return version, value;
    }

    /** The latest value, unless it cannot be read. */
    method Refresh() returns (latest: Option<(nat, V)>)
      requires Valid()
      modifies this
      ensures Valid() && old(hist) <= hist && own == old(own) && held == old(held)
      ensures |foreign| + version == old(|foreign| + version)
      ensures latest.Some? ==> latest.value == (version, value) && errors == old(errors)
      ensures latest.None? ==> errors == old(errors) + 1
    {
      Arrive();
      if * {
        errors := errors + 1;
        return None;
      }
      return Some((version, value));
    }

    /**
      The compare-and-swap.  If it succeeds, the client holds `keep` from then on.  It may fail without
      any effect, and it may be accepted and its reply be lost; then the client holds `lost`.
     */
    method Update(ver: nat, next: V, keep: Option<H>, lost: Option<H>) returns (reply: Reply, ghost landed: bool)
      requires Valid() && ver <= version && ok(next)
      requires (keep.Some? ==> shows(next, keep.value)) && (lost.Some? ==> shows(next, lost.value))
      modifies this
      ensures Valid() && old(hist) <= hist && errors == old(errors) + if reply.Error? then 1 else 0
      ensures |foreign| <= old(|foreign|)
      ensures |foreign| + version == old(|foreign| + version) + if landed then 1 else 0
      ensures landed ==> version == ver + 1 == old(version) + 1 && value == next && own == old(own) + {version}
      ensures !landed ==> own == old(own) && held == old(held)
      ensures reply.Accepted? ==> landed && held == keep
      ensures reply.Conflict? ==> !landed && ver < version
      ensures reply.Error? && landed ==> held == lost
    {
      Arrive();
      if ver != version {
        return Conflict, false;
      }
      if * {
        errors := errors + 1;
        return Error, false;
      }
      version := version + 1;
      value := next;
      hist := hist + [next];
      own := own + {version};
      held := keep;
      if * {
        held := lost;
        errors := errors + 1;
        return Error, true;
      }
      return Accepted, true;
    }
  }
}
