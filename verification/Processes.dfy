/** Descendants in a list of processes. */
module Processes {

  datatype Process = Process(pid: int, parent: int)

  predicate Edge(processes: seq<Process>, a: int, b: int) {
    exists i :: 0 <= i < |processes| && processes[i] == Process(b, a)
  }

  /** Every pid of the path is the parent of the next. */
  ghost predicate IsPath(processes: seq<Process>, path: seq<int>) {
    forall i :: 0 <= i < |path| - 1 ==> Edge(processes, path[i], path[i + 1])
  }

  ghost predicate Connects(processes: seq<Process>, path: seq<int>, from: int, x: int) {
    |path| >= 2 && path[0] == from && path[|path| - 1] == x && IsPath(processes, path)
  }

  /** Reachable by one or more steps from parent to child. */
  ghost predicate Descendant(processes: seq<Process>, pid: int, x: int) {
    exists path :: Connects(processes, path, pid, x)
  }

  function Kids(processes: seq<Process>, parent: int): set<int> {
    set i | 0 <= i < |processes| && processes[i].parent == parent :: processes[i].pid
  }

  function Pids(processes: seq<Process>): set<int> {
    set i | 0 <= i < |processes| :: processes[i].pid
  }

  lemma KidsAreEdges(processes: seq<Process>, a: int, b: int)
    ensures b in Kids(processes, a) <==> Edge(processes, a, b)
    ensures b in Kids(processes, a) ==> b in Pids(processes)
  {
    if Edge(processes, a, b) {
      var i :| 0 <= i < |processes| && processes[i] == Process(b, a);
      assert processes[i].pid == b;
    }
  }

  lemma KidIsDescendant(processes: seq<Process>, pid: int, x: int)
    requires Edge(processes, pid, x)
    ensures Descendant(processes, pid, x)
  {
    assert Connects(processes, [pid, x], pid, x);
  }

  lemma DescendantsKid(processes: seq<Process>, pid: int, a: int, b: int)
    requires Descendant(processes, pid, a) && Edge(processes, a, b)
    ensures Descendant(processes, pid, b)
  {
    var path :| Connects(processes, path, pid, a);
    assert Connects(processes, path + [b], pid, b);
  }

  /** Who can reach only closed pids reaches only members. */
  ghost predicate ClosedAt(processes: seq<Process>, members: set<int>, a: int) {
    Kids(processes, a) <= members
  }

  lemma {:induction false} PathStaysInside(processes: seq<Process>, members: set<int>, path: seq<int>, pid: int, x: int)
    requires ClosedAt(processes, members, pid) && forall a :: a in members ==> ClosedAt(processes, members, a)
    requires Connects(processes, path, pid, x)
    ensures x in members
    decreases |path|
  {
    KidsAreEdges(processes, pid, path[1]);
    if |path| > 2 {
      var rest := path[1..];
      forall i | 0 <= i < |rest| - 1 ensures Edge(processes, rest[i], rest[i + 1]) {
        assert Edge(processes, path[i + 1], path[i + 1 + 1]);
      }
      PathStaysInside(processes, members, rest, path[1], x);
    }
  }

  /** One parent: its children not seen before are recorded and queued. */
  method Search(parent: int, processes: seq<Process>, seen: set<int>, queue: seq<int>)
    returns (seen': set<int>, queue': seq<int>)
    ensures seen' == seen + Kids(processes, parent)
    ensures queue <= queue' && (forall x :: x in queue'[|queue|..] <==> x in seen' && x !in seen)
    ensures seen' == seen ==> queue' == queue
  {
    seen', queue' := seen, queue;
    var i := 0;
    while i < |processes|
      invariant 0 <= i <= |processes|
      invariant seen' == seen + Kids(processes[..i], parent)
      invariant queue <= queue' && (forall x :: x in queue'[|queue|..] <==> x in seen' && x !in seen)
      invariant seen' == seen ==> queue' == queue
    {
      assert Kids(processes[..i + 1], parent) ==
             Kids(processes[..i], parent) + if processes[i].parent == parent then {processes[i].pid} else {} by {
        KidsGrow(processes, parent, i);
      }
      if processes[i].parent == parent && processes[i].pid !in seen' {
        ghost var before := queue'[|queue|..];
        seen' := seen' + {processes[i].pid};
        queue' := queue' + [processes[i].pid];
        assert queue'[|queue|..] == before + [processes[i].pid];
      }
      i := i + 1;
    }
    assert processes[..i] == processes;
  }

  lemma KidsGrow(processes: seq<Process>, parent: int, i: nat)
    requires i < |processes|
    ensures Kids(processes[..i + 1], parent) ==
            Kids(processes[..i], parent) + if processes[i].parent == parent then {processes[i].pid} else {}
  {
    var now, next := processes[..i], processes[..i + 1];
    assert next == now + [processes[i]];
    forall x ensures x in Kids(next, parent) <==> x in Kids(now, parent) || (x == processes[i].pid && processes[i].parent == parent) {
      if x in Kids(now, parent) {
        var j :| 0 <= j < |now| && now[j].parent == parent && now[j].pid == x;
        assert next[j] == now[j];
      }
      if x == processes[i].pid && processes[i].parent == parent {
        assert next[i].pid == x;
      }
    }
  }

  /** Breadth-first search for descendants; cycles do no harm. */
  method Children(pid: int, processes: seq<Process>, recursive: bool) returns (descendants: set<int>)
    ensures recursive ==> forall x :: x in descendants <==> Descendant(processes, pid, x)
    ensures !recursive ==> forall x :: x in descendants <==> Edge(processes, pid, x)
  {
    hide Kids, Pids, Edge, Descendant;
    descendants := {};
    var parents := [pid];
    var again := true;
    forall x ensures x in Kids(processes, pid) <==> Edge(processes, pid, x) {
      KidsAreEdges(processes, pid, x);
    }
    while again
      invariant again ==> parents != []
      invariant again && !recursive ==> parents == [pid] && descendants == {}
      invariant !again && !recursive ==> descendants == Kids(processes, pid)
      invariant !again && recursive ==> parents == []
      invariant descendants <= Pids(processes)
      invariant forall x :: x in descendants ==> Descendant(processes, pid, x)
      invariant forall x :: x in parents ==> x == pid || x in descendants
      invariant forall a :: (a == pid || a in descendants) && a !in parents ==> ClosedAt(processes, descendants, a)
      decreases again, Pids(processes) - descendants, |parents|
    {
      var parent := parents[0];
      var seen, queue := Search(parent, processes, descendants, parents[1..]);
      SearchIsSound(processes, pid, parent, descendants);
      SearchCloses(processes, pid, parent, parents, queue, descendants, seen);
      assert seen != descendants ==> Pids(processes) - seen < Pids(processes) - descendants by {
        assert seen != descendants ==> exists x :: x in seen && x !in descendants;
      }
      descendants, parents := seen, queue;
      again := recursive && parents != [];
    }
    if recursive {
      forall x | Descendant(processes, pid, x) ensures x in descendants {
        DescendantIsMember(processes, descendants, pid, x);
      }
    }
  }

  lemma DescendantIsMember(processes: seq<Process>, members: set<int>, pid: int, x: int)
    requires ClosedAt(processes, members, pid) && forall a :: a in members ==> ClosedAt(processes, members, a)
    requires Descendant(processes, pid, x)
    ensures x in members
  {
    var path :| Connects(processes, path, pid, x);
    PathStaysInside(processes, members, path, pid, x);
  }

  lemma SearchIsSound(processes: seq<Process>, pid: int, parent: int, members: set<int>)
    requires parent == pid || Descendant(processes, pid, parent)
    ensures Kids(processes, parent) <= Pids(processes)
    ensures forall x :: x in Kids(processes, parent) ==> Descendant(processes, pid, x)
  {
    forall x | x in Kids(processes, parent) ensures x in Pids(processes) && Descendant(processes, pid, x) {
      KidsAreEdges(processes, parent, x);
      if parent == pid {
        KidIsDescendant(processes, pid, x);
      } else {
        DescendantsKid(processes, pid, parent, x);
      }
    }
  }

  /** A pid that is done has all its children recorded. */
  lemma SearchCloses(processes: seq<Process>, pid: int, parent: int, parents: seq<int>, queue: seq<int>,
                     members: set<int>, seen: set<int>)
    requires parents != [] && parents[0] == parent && seen == members + Kids(processes, parent)
    requires parents[1..] <= queue && forall x :: x in queue[|parents[1..]|..] <==> x in seen && x !in members
    requires forall x :: x in parents ==> x == pid || x in members
    requires forall a :: (a == pid || a in members) && a !in parents ==> ClosedAt(processes, members, a)
    ensures forall a :: (a == pid || a in seen) && a !in queue ==> ClosedAt(processes, seen, a)
    ensures forall x :: x in queue ==> x == pid || x in seen
  {
    hide Kids;
    var n := |parents[1..]|;
    assert queue == queue[..n] + queue[n..] && queue[..n] == parents[1..];
    assert parents == [parent] + parents[1..];
    forall a | (a == pid || a in seen) && a !in queue ensures ClosedAt(processes, seen, a) {
      assert a !in queue[n..] && a !in parents[1..];
      if a != parent {
        assert a !in parents;
      }
    }
  }
}
