/** The messages that the executor sends over a run. */
module ExecutorMessages {
  import opened LinkedMap
  import opened Executor

  /** What an event sends after a history: an update that is not TASK_STAGING as it
      is, and on a reconnect the pending updates and the launched tasks. */
  ghost function SentBy(p: seq<Event>, e: Event): seq<Message> {
    if e.SendUpdate? && e.status.state != TASK_STAGING then [StatusUpdate(Update(e.id, e.status))]
    else if e.Reconnect? && !Stopped(p) then [Reregister(ValuesOf(Pending(p, 0)), ValuesOf(Launched(p, 0)))]
    else []
  }

  ghost function Sent(es: seq<Event>): seq<Message> {
    if es == [] then [] else Sent(es[..|es| - 1]) + SentBy(es[..|es| - 1], es[|es| - 1])
  }

  /** The messages of every run, in order. */
  lemma {:induction false} RunSends(es: seq<Event>)
    requires Sane(es)
    ensures Run(es).sent == Sent(es)
  {
    hide Sane, Pending, Launched, Stopped, Online, Listening;
    if es != [] {
      var p, e := es[..|es| - 1], es[|es| - 1];
      assert p + [e] == es;
      SanePrefix(p, e);
      RunSends(p);
      RunAgrees(p);
    }
  }
}
