/** `Resources::find`: gather a target from the pool, first from its own role,
    then from unreserved resources, then from any role. */
module Find {
  import opened Common
  import opened ResourceModel
  import opened Validation
  import opened Pool
  import opened Operations

  // ---------------------------------------------------------------------
  // The code
  // ---------------------------------------------------------------------

  function Unreserve(e: Entry): Entry {
    e.(resource := e.resource.(reservations := []))
  }

  function UnreserveEach(pool: seq<Entry>): seq<Entry> {
    if pool == [] then [] else [Unreserve(pool[0])] + UnreserveEach(pool[1..])
  }

  /** `Resources::toUnreserved`: add each entry with its reservations cleared. */
  function ToUnreserved(pool: seq<Entry>): seq<Entry> {
    AddAll([], UnreserveEach(pool))
  }

  /** The three predicates tried in turn. */
  datatype Pass = TargetRole(role: string) | UnreservedOnly | AnyRole

  predicate Accepts(pass: Pass, r: Resource) {
    match pass
    case TargetRole(role) => IsReservedFor(r, role)
    case UnreservedOnly => IsUnreserved(r)
    case AnyRole => true
  }

  function Passes(target: Resource): seq<Pass> {
    (if IsReserved(target) then [TargetRole(ReservationRole(target))] else []) + [UnreservedOnly, AnyRole]
  }

  function Select(pool: seq<Entry>, pass: Pass): seq<Entry> {
    if pool == [] then []
    else (if Accepts(pass, pool[0].resource) then [pool[0]] else []) + Select(pool[1..], pass)
  }

  /** `Resources::filter`: add each entry that the predicate accepts. */
  function Filter(pool: seq<Entry>, pass: Pass): seq<Entry> {
    AddAll([], Select(pool, pass))
  }

  function WithReservations(e: Entry, rs: seq<ReservationInfo>): Entry {
    e.(resource := e.resource.(reservations := rs))
  }

  /** What remains is taken from an entry, so it carries that entry's reservations. */
  function AddReserved(found: seq<Entry>, remaining: seq<Entry>, rs: seq<ReservationInfo>): seq<Entry>
    decreases remaining
  {
    if remaining == [] then found
    else AddReserved(Add(found, WithReservations(remaining[0], rs)), remaining[1..], rs)
  }

  datatype State =
    | Searching(found: seq<Entry>, total: seq<Entry>, remaining: seq<Entry>)
    | Finished(found: seq<Entry>)

  /** One pass over the candidates: stop at the first that covers what remains or
      is itself wholly needed. */
  function Scan(s: State, candidates: seq<Entry>): State
    requires s.Searching?
    decreases candidates
  {
    if candidates == [] then s
    else
      var e := candidates[0];
      var unreserved := ToUnreserved(FromResource(e.resource));
      if Contains(unreserved, s.remaining) then
        Finished(AddReserved(s.found, s.remaining, e.resource.reservations))
      else if Contains(s.remaining, unreserved) then
        Searching(Add(s.found, e), Subtract(s.total, e), SubtractAll(s.remaining, unreserved))
      else Scan(s, candidates[1..])
  }

  function Search(s: State, passes: seq<Pass>): Option<seq<Entry>>
    decreases passes
  {
    if s.Finished? then Some(s.found)
    else if passes == [] then None
    else Search(Scan(s, Filter(s.total, passes[0])), passes[1..])
  }

  function FindTarget(pool: seq<Entry>, target: Resource): Option<seq<Entry>> {
    Search(Searching([], pool, ToUnreserved(FromResource(target))), Passes(target))
  }

  // ---------------------------------------------------------------------
  // Filtering a pool
  // ---------------------------------------------------------------------

  /** A pool of validated resources. */
  predicate Sound(pool: seq<Entry>) {
    Pool.Valid(pool) && forall i :: 0 <= i < |pool| ==> Usable(pool[i].resource)
  }

  lemma {:induction false} InsertAppends(pool: seq<Entry>, e: Entry)
    requires forall i :: 0 <= i < |pool| ==> !Addable(pool[i].resource, e.resource)
    ensures Insert(pool, e) == pool + [e]
  {
    if pool != [] {
      forall i | 0 <= i < |pool[1..]| ensures !Addable(pool[1..][i].resource, e.resource) {
        assert pool[1..][i] == pool[i + 1];
      }
      InsertAppends(pool[1..], e);
      assert pool == [pool[0]] + pool[1..];
    }
  }

  /** Re-adding entries that cannot be merged just lists them. */
  lemma {:induction false} AddAllAppends(pool: seq<Entry>, that: seq<Entry>)
    requires NoneEmpty(that) && NoTwoAddable(pool + that)
    ensures AddAll(pool, that) == pool + that
    decreases that
  {
    if that != [] {
      var all := pool + that;
      forall i | 0 <= i < |pool| ensures !Addable(pool[i].resource, that[0].resource) {
        assert all[i] == pool[i] && all[|pool|] == that[0];
      }
      InsertAppends(pool, that[0]);
      assert (pool + [that[0]]) + that[1..] == all;
      AddAllAppends(pool + [that[0]], that[1..]);
    }
  }

  predicate Within(part: seq<Entry>, whole: seq<Entry>) {
    forall i :: 0 <= i < |part| ==> part[i] in whole
  }

  lemma {:induction false} SelectIsApart(pool: seq<Entry>, pass: Pass)
    requires NoneEmpty(pool) && NoTwoAddable(pool)
    ensures Within(Select(pool, pass), pool)
    ensures NoneEmpty(Select(pool, pass)) && NoTwoAddable(Select(pool, pass))
  {
    hide Addable, IsEmpty, Accepts;
    if pool != [] {
      var rest := Select(pool[1..], pass);
      SelectIsApart(pool[1..], pass);
      forall i | 0 <= i < |rest| ensures rest[i] in pool[1..] && !Addable(pool[0].resource, rest[i].resource) {
        var j :| 0 <= j < |pool[1..]| && pool[1..][j] == rest[i];
        assert pool[j + 1] == rest[i];
      }
    }
  }

  lemma {:induction false} SelectHas(pool: seq<Entry>, pass: Pass, e: Entry)
    ensures e in Select(pool, pass) <==> e in pool && Accepts(pass, e.resource)
  {
    if pool != [] {
      assert pool == [pool[0]] + pool[1..];
      SelectHas(pool[1..], pass, e);
    }
  }

  /** Filtering keeps exactly the accepted entries, in order and unmerged. */
  lemma FilterSelects(pool: seq<Entry>, pass: Pass)
    requires Pool.Valid(pool)
    ensures Filter(pool, pass) == Select(pool, pass)
    ensures forall e :: e in Filter(pool, pass) <==> e in pool && Accepts(pass, e.resource)
    ensures Within(Filter(pool, pass), pool)
  {
    SelectIsApart(pool, pass);
    assert [] + Select(pool, pass) == Select(pool, pass);
    AddAllAppends([], Select(pool, pass));
    forall e ensures e in Select(pool, pass) <==> e in pool && Accepts(pass, e.resource) {
      SelectHas(pool, pass, e);
    }
  }
}
