/** The `Resources` class: a vector of entries updated in place. Each method is
    proved to compute the list function that specifies it. */
module ResourcesClass {
  import opened Common
  import opened Values
  import opened ResourceModel
  import opened Validation
  import Pool
  import opened Totals
  import Ops = Operations
  import Search = Find
  import Replaying = Checkpoint

  type Entry = Pool.Entry

  class Resources {
    var resources: seq<Entry>

    constructor ()
      ensures resources == []
    {
      resources := [];
    }

    constructor Copy(that: Resources)
      ensures resources == that.resources
    {
      resources := that.resources;
    }

    constructor Of(r: Resource)
      ensures resources == Ops.FromResource(r)
    {
      resources := [];
      new;
      if IsValid(r) {
        Add(Pool.ToEntry(r));
      }
    }

    method Add(that: Entry)
      modifies this
      ensures resources == Pool.Add(old(resources), that)
    {
      if Pool.IsEmpty(that) {
        return;
      }
      var found := false;
      var i := 0;
      while i < |resources| && !found
        invariant 0 <= i <= |resources|
        invariant !found ==> resources == old(resources)
        invariant !found ==> Pool.Insert(old(resources), that) == resources[..i] + Pool.Insert(resources[i..], that)
        invariant found ==> resources == Pool.Insert(old(resources), that)
      {
        if Addable(resources[i].resource, that.resource) {
          assert resources[i..][0] == resources[i] && resources[i..][1..] == resources[i + 1..];
          resources := resources[i := Pool.Combine(resources[i], that)];
          found := true;
        } else {
          assert resources[i..][0] == resources[i] && resources[i..][1..] == resources[i + 1..];
        }
        i := i + 1;
      }
      if !found {
        resources := resources + [that];
      }
    }

    method Subtract(that: Entry)
      modifies this
      ensures resources == Pool.Subtract(old(resources), that)
    {
      if Pool.IsEmpty(that) {
        return;
      }
      var i := 0;
      while i < |resources|
        invariant 0 <= i <= |resources| && resources == old(resources)
        invariant Pool.FirstSubtractable(resources, that) >= i
      {
        if Subtractable(resources[i].resource, that.resource) {
          resources := resources[i := Pool.Difference(resources[i], that)];
          if Pool.IsNegative(resources[i]) || Pool.IsEmpty(resources[i]) {
            resources := resources[i := resources[|resources| - 1]];
            resources := resources[..|resources| - 1];
            assert resources == Pool.SwapRemove(old(resources), i);
          }
          return;
        }
        i := i + 1;
      }
    }

    method ContainsEntry(that: Entry) returns (result: bool)
      ensures result == Pool.Holds(resources, that)
    {
      for i := 0 to |resources|
        invariant forall j :: 0 <= j < i ==> !Pool.EntryIncludes(resources[j], that)
      {
        if Pool.EntryIncludes(resources[i], that) {
          return true;
        }
      }
      return false;
    }

    method Contains(that: Resources) returns (result: bool)
      ensures result == Pool.Contains(resources, that.resources)
    {
      var remaining := new Resources.Copy(this);
      var list := that.resources;
      for i := 0 to |list|
        invariant Pool.Contains(resources, list) == Pool.Contains(remaining.resources, list[i..])
        invariant fresh(remaining) && list == that.resources
      {
        var held := remaining.ContainsEntry(list[i]);
        if !held {
          return false;
        }
        assert list[i..][0] == list[i] && list[i..][1..] == list[i + 1..];
        if IsPersistentVolume(list[i].resource) {
          remaining.Subtract(list[i]);
        }
      }
      return true;
    }

    method ContainsResource(that: Resource) returns (result: bool)
      ensures result == Ops.ContainsResource(resources, that)
    {
      if !IsValid(that) {
        return false;
      }
      result := ContainsEntry(Pool.ToEntry(that));
    }

    method Equals(that: Resources) returns (result: bool)
      ensures result == Pool.PoolEq(resources, that.resources)
    {
      result := Contains(that);
      if result {
        result := that.Contains(this);
      }
    }

    method AddPool(that: Resources)
      requires that != this
      modifies this
      ensures resources == Pool.AddAll(old(resources), that.resources)
    {
      var list := that.resources;
      for i := 0 to |list|
        invariant Pool.AddAll(old(resources), list) == Pool.AddAll(resources, list[i..])
        invariant list == that.resources
      {
        assert list[i..][0] == list[i] && list[i..][1..] == list[i + 1..];
        Add(list[i]);
      }
    }

    method SubtractPool(that: Resources)
      requires that != this
      modifies this
      ensures resources == Pool.SubtractAll(old(resources), that.resources)
    {
      var list := that.resources;
      for i := 0 to |list|
        invariant Pool.SubtractAll(old(resources), list) == Pool.SubtractAll(resources, list[i..])
        invariant list == that.resources
      {
        assert list[i..][0] == list[i] && list[i..][1..] == list[i + 1..];
        Subtract(list[i]);
      }
    }

    method PopReservation() returns (result: Resources)
      requires Ops.AllReserved(resources)
      ensures fresh(result) && result.resources == Ops.PopReservation(resources)
    {
      result := new Resources();
      for i := 0 to |resources|
        invariant fresh(result)
        invariant Ops.PopReservation(resources) == Ops.PopInto(result.resources, resources[i..])
      {
        assert resources[i..][0] == resources[i] && resources[i..][1..] == resources[i + 1..];
        result.Add(resources[i].(resource := Pop(resources[i].resource)));
      }
    }

    /** `get<T>(name)`: the total of one type under one name. */
    method GetTotal(name: string, kind: Value) returns (result: Option<Value>)
      ensures result == Get(resources, name, kind)
    {
      var total, found := ZeroLike(kind), false;
      for i := 0 to |resources|
        invariant SameKind(total, kind)
        invariant TotalFrom(ZeroLike(kind), resources, name) == TotalFrom(total, resources[i..], name)
        invariant found <==> exists j :: 0 <= j < i && Counts(resources[j], name, kind)
      {
        assert resources[i..][0] == resources[i] && resources[i..][1..] == resources[i + 1..];
        if resources[i].resource.name == name && SameKind(resources[i].resource.value, kind) {
          assert Counts(resources[i], name, kind);
          total := Plus(total, resources[i].resource.value);
          found := true;
        }
      }
      return if found then Some(total) else None;
    }

    method ToUnreserved() returns (result: Resources)
      ensures fresh(result) && result.resources == Search.ToUnreserved(resources)
    {
      result := new Resources();
      for i := 0 to |resources|
        invariant fresh(result)
        invariant Search.ToUnreserved(resources) == Pool.AddAll(result.resources, Search.UnreserveEach(resources[i..]))
      {
        var e := Search.Unreserve(resources[i]);
        assert resources[i..][0] == resources[i] && resources[i..][1..] == resources[i + 1..];
        assert Search.UnreserveEach(resources[i..])[1..] == Search.UnreserveEach(resources[i + 1..]);
        result.Add(e);
      }
    }

    method Filter(pass: Search.Pass) returns (result: Resources)
      ensures fresh(result) && result.resources == Search.Filter(resources, pass)
    {
      result := new Resources();
      for i := 0 to |resources|
        invariant fresh(result)
        invariant Search.Filter(resources, pass) == Pool.AddAll(result.resources, Search.Select(resources[i..], pass))
      {
        var rest := Search.Select(resources[i + 1..], pass);
        assert resources[i..][0] == resources[i] && resources[i..][1..] == resources[i + 1..];
        if Search.Accepts(pass, resources[i].resource) {
          assert ([resources[i]] + rest)[1..] == rest;
          result.Add(resources[i]);
        } else {
          assert Search.Select(resources[i..], pass) == rest;
        }
      }
    }

    method Reserve(r: Resource) returns (ok: bool)
      modifies this
      ensures ok == Ops.Step(Ops.RESERVE, old(resources), r).Ok?
      ensures ok ==> resources == Ops.Step(Ops.RESERVE, old(resources), r).value
    {
      if !IsReserved(r) || !IsDynamicallyReserved(r) {
        return false;
      }
      Ops.FromResourceReserved(r);
      var whole := new Resources.Of(r);
      var popped := whole.PopReservation();
      ok := Contains(popped);
      if ok {
        SubtractPool(popped);
        Add(Pool.ToEntry(r));
      }
    }

    method Unreserve(r: Resource) returns (ok: bool)
      modifies this
      ensures ok == Ops.Step(Ops.UNRESERVE, old(resources), r).Ok?
      ensures ok ==> resources == Ops.Step(Ops.UNRESERVE, old(resources), r).value
    {
      if !IsReserved(r) || !IsDynamicallyReserved(r) {
        return false;
      }
      ok := ContainsResource(r);
      if ok {
        Ops.FromResourceReserved(r);
        var whole := new Resources.Of(r);
        var popped := whole.PopReservation();
        Subtract(Pool.ToEntry(r));
        AddPool(popped);
      }
    }

    method Create(volume: Resource) returns (ok: bool)
      modifies this
      ensures ok == Ops.Step(Ops.CREATE, old(resources), volume).Ok?
      ensures ok ==> resources == Ops.Step(Ops.CREATE, old(resources), volume).value
    {
      if !IsPersistentVolume(volume) {
        return false;
      }
      var stripped := StripVolume(volume);
      ok := ContainsResource(stripped);
      if ok {
        Subtract(Pool.ToEntry(stripped));
        Add(Pool.ToEntry(volume));
      }
    }

    method Destroy(volume: Resource) returns (ok: bool)
      modifies this
      ensures ok == Ops.Step(Ops.DESTROY, old(resources), volume).Ok?
      ensures ok ==> resources == Ops.Step(Ops.DESTROY, old(resources), volume).value
    {
      if !IsPersistentVolume(volume) {
        return false;
      }
      ok := ContainsResource(volume);
      if ok {
        Subtract(Pool.ToEntry(volume));
        var more := ContainsResource(volume);
        ok := !more;
        if ok {
          Add(Pool.ToEntry(StripVolume(volume)));
        }
      }
    }

    /** `apply`: a changed copy, an error, or a failing `CHECK`. */
    method Apply(op: Ops.Operation) returns (outcome: Ops.Outcome)
      ensures outcome == Ops.Apply(resources, op)
    {
      var result := new Resources.Copy(this);
      if op.UnknownOperation? {
        return Ops.Rejected;
      }
      if op.Change? {
        var rs := op.resources;
        for i := 0 to |rs|
          invariant forall j :: 0 <= j < i ==> IsValid(rs[j])
        {
          if !IsValid(rs[i]) {
            return Ops.Rejected;
          }
        }
        for i := 0 to |rs|
          invariant fresh(result)
          invariant Ops.Steps(op.action, resources, rs) == Ops.Steps(op.action, result.resources, rs[i..])
        {
          assert rs[i..][0] == rs[i] && rs[i..][1..] == rs[i + 1..];
          var ok;
          match op.action {
            case RESERVE => ok := result.Reserve(rs[i]);
            case UNRESERVE => ok := result.Unreserve(rs[i]);
            case CREATE => ok := result.Create(rs[i]);
            case DESTROY => ok := result.Destroy(rs[i]);
          }
          if !ok {
            return Ops.Rejected;
          }
        }
      }
      outcome := if Ops.ChecksPass(resources, result.resources) then Ops.Applied(result.resources) else Ops.Aborted;
    }

    /** Add what remains of a target, carrying the reservations of its source. */
    method AddReserved(remaining: Resources, rs: seq<ReservationInfo>)
      requires remaining != this
      modifies this
      ensures resources == Search.AddReserved(old(resources), remaining.resources, rs)
    {
      var list := remaining.resources;
      for k := 0 to |list|
        invariant Search.AddReserved(old(resources), list, rs) == Search.AddReserved(resources, list[k..], rs)
        invariant remaining.resources == list
      {
        assert list[k..][0] == list[k] && list[k..][1..] == list[k + 1..];
        Add(Search.WithReservations(list[k], rs));
      }
    }

    /** The inner loop of `find`, over the candidates of one pass. */
    static method Scan(found: Resources, total: Resources, remaining: Resources, candidates: seq<Entry>)
      returns (finished: bool)
      requires found != total && found != remaining && total != remaining
      modifies found, total, remaining
      ensures var s := old(Search.Searching(found.resources, total.resources, remaining.resources));
              Search.Scan(s, candidates) ==
                if finished then Search.Finished(found.resources)
                else Search.Searching(found.resources, total.resources, remaining.resources)
    {
      ghost var s := Search.Searching(found.resources, total.resources, remaining.resources);
      for i := 0 to |candidates|
        invariant Search.Searching(found.resources, total.resources, remaining.resources) == s
        invariant Search.Scan(s, candidates) == Search.Scan(s, candidates[i..])
      {
        var e := candidates[i];
        assert candidates[i..][0] == e && candidates[i..][1..] == candidates[i + 1..];
        var single := new Resources.Of(e.resource);
        var unreserved := single.ToUnreserved();
        var covers := unreserved.Contains(remaining);
        if covers {
          found.AddReserved(remaining, e.resource.reservations);
          return true;
        }
        var needed := remaining.Contains(unreserved);
        if needed {
          found.Add(e);
          total.Subtract(e);
          remaining.SubtractPool(unreserved);
          return false;
        }
      }
      return false;
    }

    /** `find(Resource)` */
    method FindTarget(target: Resource) returns (result: Option<seq<Entry>>)
      ensures result == Search.FindTarget(resources, target)
    {
      var found := new Resources();
      var total := new Resources.Copy(this);
      var whole := new Resources.Of(target);
      var remaining := whole.ToUnreserved();
      var passes := Search.Passes(target);
      for p := 0 to |passes|
        invariant fresh(found) && fresh(total) && fresh(remaining)
        invariant found != total && found != remaining && total != remaining
        invariant Search.FindTarget(resources, target) ==
                  Search.Search(Search.Searching(found.resources, total.resources, remaining.resources), passes[p..])
      {
        assert passes[p..][0] == passes[p] && passes[p..][1..] == passes[p + 1..];
        var filtered := total.Filter(passes[p]);
        var finished := Scan(found, total, remaining, filtered.resources);
        if finished {
          return Some(found.resources);
        }
      }
      return None;
    }
  }

  /** `applyCheckpointedResources` */
  method ApplyCheckpointed(agent: Resources, checkpoint: seq<Resource>) returns (result: Try<seq<Entry>>)
    ensures result == Replaying.Replay(agent.resources, checkpoint)
  {
    var total := new Resources.Copy(agent);
    for i := 0 to |checkpoint|
      invariant fresh(total)
      invariant Replaying.Replay(agent.resources, checkpoint) == Replaying.Replay(total.resources, checkpoint[i..])
    {
      var r := checkpoint[i];
      assert checkpoint[i..][0] == r && checkpoint[i..][1..] == checkpoint[i + 1..];
      if !Replaying.NeedCheckpointing(r) {
        return Error;
      }
      var stripped := Replaying.Strip(r);
      var held := total.ContainsResource(stripped);
      if !held {
        return Error;
      }
      if IsValid(stripped) {
        total.Subtract(Pool.ToEntry(stripped));
      }
      if IsValid(r) {
        total.Add(Pool.ToEntry(r));
      }
    }
    return Ok(total.resources);
  }
}
