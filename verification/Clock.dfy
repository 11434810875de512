/** The hybrid logical clock of a log. */
module Clocks {
  import opened Collections
  import opened LogEntries

  const UINT64_MAX: nat := 18446744073709551615
  const UINT32_MAX: nat := 0xffff_ffff

  /** What a clock tolerates: a limit that is 0 is none. */
  datatype Config = Config(maxOffset: nat, wallTimeUpperBound: nat, toleratedForwardClockJump: nat)
  {
    function MaxWallTime(): nat {
      if wallTimeUpperBound > 0 then wallTimeUpperBound else UINT64_MAX
    }
  }

  datatype Error = ForwardJump | ClockOffset | WallTimeOverflow

  datatype Result = Ok(time: Timestamp) | Err(error: Error)

  function Compare(a: Timestamp, b: Timestamp): int {
    if a.wallTime > b.wallTime then 1
    else if a.wallTime < b.wallTime then -1
    else if a.logical > b.logical then 1
    else if a.logical < b.logical then -1
    else 0
  }

  function Bigger(a: Timestamp, b: Timestamp): Timestamp {
    if Compare(a, b) == -1 then b else a
  }

  /** `Compare` is a total order, the one of `Before`. */
  lemma CompareIsOrder(a: Timestamp, b: Timestamp, c: Timestamp)
    ensures Compare(a, b) == -1 <==> Before(a, b)
    ensures Compare(a, b) == 0 <==> a == b
    ensures Compare(a, b) == -Compare(b, a)
    ensures Before(a, b) && Before(b, c) ==> Before(a, c)
    ensures Bigger(a, b) == Bigger(b, a) && !Before(Bigger(a, b), a) && !Before(Bigger(a, b), b)
  {
  }

  function ValidateOffset(config: Config, offset: int): Option<Error> {
    if config.toleratedForwardClockJump > 0 && -offset > config.toleratedForwardClockJump then Some(ForwardJump)
    else if config.maxOffset > 0 && offset > config.maxOffset then Some(ClockOffset)
    else None
  }

  /** What an update makes of the last time, the one received and the physical time. */
  function Tick(config: Config, last: Timestamp, other: Timestamp, physical: nat): Result {
    var latest := Bigger(other, last);
    var offset := latest.wallTime - physical;
    var invalid := ValidateOffset(config, offset);
    if invalid.Some? then Err(invalid.value)
    else
      var next := if offset < 0 then Timestamp(physical, 0)
                  else if latest.logical + 1 > UINT32_MAX then Timestamp(latest.wallTime + 1, 0)
                  else Timestamp(latest.wallTime, latest.logical + 1);
      if next.wallTime > config.MaxWallTime() then Err(WallTimeOverflow) else Ok(next)
  }

  /** An update that succeeds gives a time that is later than both, and not too far ahead of the
      physical time; in range, across the rollover of the logical part. */
  lemma TickAdvances(config: Config, last: Timestamp, other: Timestamp, physical: nat)
    requires Tick(config, last, other, physical).Ok?
    ensures var t := Tick(config, last, other, physical).time;
            && Before(last, t) && Before(other, t)
            && physical <= t.wallTime && t.logical <= 0xffff_ffff
            && t.wallTime <= (if config.wallTimeUpperBound > 0 then config.wallTimeUpperBound
                              else 0xffff_ffff_ffff_ffff)
            && (config.maxOffset > 0 ==> t.wallTime <= physical + config.maxOffset + 1)
  {
  }

  /** It is the least such time, but for the rollover. */
  lemma TickIsLeast(config: Config, last: Timestamp, other: Timestamp, physical: nat, t: Timestamp)
    requires Tick(config, last, other, physical).Ok?
    requires Before(last, t) && Before(other, t) && physical <= t.wallTime && t.logical <= 0xffff_ffff
    ensures !Before(t, Tick(config, last, other, physical).time)
  {
  }

  /** When exactly an update fails, and why. */
  lemma TickFails(config: Config, last: Timestamp, other: Timestamp, physical: nat)
    ensures var latest, r := if Before(last, other) then other else last, Tick(config, last, other, physical);
            var bound := if config.wallTimeUpperBound > 0 then config.wallTimeUpperBound else 0xffff_ffff_ffff_ffff;
            && (r == Err(ForwardJump) <==> 0 < config.toleratedForwardClockJump < physical - latest.wallTime)
            && (r == Err(ClockOffset) <==> 0 < config.maxOffset < latest.wallTime - physical)
            && (r == Err(WallTimeOverflow) <==>
                  && r != Err(ForwardJump) && r != Err(ClockOffset)
                  && (|| physical > bound || latest.wallTime > bound
                      || (latest.wallTime == bound && latest.wallTime >= physical
                          && latest.logical >= 0xffff_ffff)))
  {
  }

  class HLC {
    const config: Config
    var last: Timestamp

    constructor (config: Config, physical: nat, initial: Timestamp)
      ensures this.config == config && last == Bigger(initial, Timestamp(physical, 0))
    {
      this.config := config;
      last := Bigger(initial, Timestamp(physical, 0));
    }

    /** A clock that fails stays as it is. */
    method Update(other: Timestamp, physical: nat) returns (r: Result)
      modifies this
      ensures r == Tick(config, old(last), other, physical)
      ensures last == if r.Ok? then r.time else old(last)
    {
      var latest := Bigger(other, last);
      var wallTime := physical;
      var offset := latest.wallTime - wallTime;
      var invalid := ValidateOffset(config, offset);
      if invalid.Some? {
        return Err(invalid.value);
      }
      var logical;
      if offset < 0 {
        logical := 0;
      } else {
        wallTime := latest.wallTime;
        logical := latest.logical + 1;
        if logical > UINT32_MAX {
          wallTime := wallTime + 1;
          logical := 0;
        }
      }
      if wallTime > config.MaxWallTime() {
        return Err(WallTimeOverflow);
      }
      last := Timestamp(wallTime, logical);
      r := Ok(last);
    }
  }

  // ---------- Runs of any number of replicas ----------

  /** At some physical time a replica takes a new timestamp, or updates its clock with the one of
      an earlier event. */
  datatype Event = Event(replica: nat, physical: nat, receives: Option<nat>)

  /** The clocks to begin with: what each is set to, and what it tolerates. */
  datatype System = System(configs: nat -> Config, initial: nat -> Timestamp)

  /** The results of the events of a run: each updates the clock of its replica. An event that
      receives the timestamp of one that has failed has nothing to receive, and fails. */
  function Results(sys: System, events: seq<Event>): (rs: seq<Result>)
    ensures |rs| == |events|
  {
    if |events| == 0 then []
    else
      var e, init := events[|events| - 1], events[..|events| - 1];
      Results(sys, init) + [ResultOf(sys, init, Results(sys, init), e)]
  }

  function ResultOf(sys: System, events: seq<Event>, rs: seq<Result>, e: Event): Result
    requires |rs| == |events|
  {
    var last := Clock(sys, events, rs, e.replica);
    match e.receives
    case None => Tick(sys.configs(e.replica), last, last, e.physical)
    case Some(k) => if k < |rs| && rs[k].Ok? then Tick(sys.configs(e.replica), last, rs[k].time,
                                                       e.physical) else Err(ClockOffset)
  }

  /** What the clock of a replica shows after the events. */
  function Clock(sys: System, events: seq<Event>, rs: seq<Result>, replica: nat): Timestamp
    requires |rs| == |events|
  {
    if |events| == 0 then sys.initial(replica)
    else
      var n := |events| - 1;
      if events[n].replica == replica && rs[n].Ok? then rs[n].time else Clock(sys, events[..n], rs[..n], replica)
  }

  lemma {:induction false} ResultsPrefix(sys: System, events: seq<Event>, n: nat)
    requires n <= |events|
    ensures Results(sys, events)[..n] == Results(sys, events[..n])
  {
    if n == |events| {
      assert events[..n] == events;
    } else {
      var init := events[..|events| - 1];
      ResultsPrefix(sys, init, n);
      assert init[..n] == events[..n];
      assert Results(sys, events)[..|init|] == Results(sys, init);
    }
  }

  lemma ResultAt(sys: System, events: seq<Event>, j: nat)
    requires j < |events|
    ensures Results(sys, events)[j] == ResultOf(sys, events[..j], Results(sys, events)[..j], events[j])
  {
    ResultsPrefix(sys, events, j + 1);
    ResultsPrefix(sys, events, j);
    assert events[..j + 1][..j] == events[..j];
    assert Results(sys, events)[j] == Results(sys, events)[..j + 1][j];
  }

  /** Both have succeeded, and the later is on the same replica as the earlier or receives its timestamp. */
  ghost predicate Follows(events: seq<Event>, rs: seq<Result>, i: nat, j: nat)
    requires |rs| == |events|
  {
    i < j < |events| && rs[i].Ok? && rs[j].Ok? && (events[i].replica == events[j].replica
                                                   || events[j].receives == Some(i))
  }

  /** The later is caused by the earlier. */
  ghost predicate Causes(events: seq<Event>, rs: seq<Result>, i: nat, j: nat)
    requires |rs| == |events|
    decreases j
  {
    Follows(events, rs, i, j) || exists k :: 0 <= k < j && Follows(events, rs, k, j) && Causes(events, rs, i, k)
  }

  lemma {:induction false} ClockIsAfter(sys: System, events: seq<Event>, rs: seq<Result>, i: nat)
    requires |rs| == |events| && i < |events| && rs[i].Ok?
    requires forall j :: 0 <= j < |events| && rs[j].Ok? ==>
               Before(Clock(sys, events[..j], rs[..j], events[j].replica), rs[j].time)
    ensures !Before(Clock(sys, events, rs, events[i].replica), rs[i].time)
  {
    var n := |events| - 1;
    if i < n {
      forall j | 0 <= j < n && rs[j].Ok?
        ensures Before(Clock(sys, events[..n][..j], rs[..n][..j], events[j].replica), rs[j].time)
      {
        assert events[..n][..j] == events[..j] && rs[..n][..j] == rs[..j];
      }
      ClockIsAfter(sys, events[..n], rs[..n], i);
    }
  }

  lemma StampAdvances(sys: System, events: seq<Event>, j: nat)
    requires j < |events| && Results(sys, events)[j].Ok?
    ensures var rs := Results(sys, events);
            Before(Clock(sys, events[..j], rs[..j], events[j].replica), rs[j].time)
    ensures var rs := Results(sys, events);
            forall k :: events[j].receives == Some(k) ==> k < j && rs[k].Ok? && Before(rs[k].time, rs[j].time)
  {
    var rs := Results(sys, events);
    ResultAt(sys, events, j);
    var last := Clock(sys, events[..j], rs[..j], events[j].replica);
    match events[j].receives
    case None => TickAdvances(sys.configs(events[j].replica), last, last, events[j].physical);
    case Some(k) => TickAdvances(sys.configs(events[j].replica), last, rs[k].time, events[j].physical);
  }

  lemma FollowsIsLater(sys: System, events: seq<Event>, i: nat, j: nat)
    requires Follows(events, Results(sys, events), i, j)
    ensures Before(Results(sys, events)[i].time, Results(sys, events)[j].time)
  {
    var rs := Results(sys, events);
    StampAdvances(sys, events, j);
    if events[i].replica == events[j].replica {
      forall m | 0 <= m < j && rs[..j][m].Ok?
        ensures Before(Clock(sys, events[..j][..m], rs[..j][..m], events[..j][m].replica), rs[..j][m].time)
      {
        StampAdvances(sys, events, m);
        assert events[..j][..m] == events[..m] && rs[..j][..m] == rs[..m];
      }
      ClockIsAfter(sys, events[..j], rs[..j], i);
    }
  }

  /** In any run of any number of replicas, whatever their physical clocks show, what is caused by
      an event has a later timestamp. */
  lemma {:induction false} CausalityIsKept(sys: System, events: seq<Event>, i: nat, j: nat)
    requires Causes(events, Results(sys, events), i, j)
    ensures i < j < |events| && Results(sys, events)[i].Ok? && Results(sys, events)[j].Ok?
    ensures Before(Results(sys, events)[i].time, Results(sys, events)[j].time)
    decreases j
  {
    var rs := Results(sys, events);
    if Follows(events, rs, i, j) {
      FollowsIsLater(sys, events, i, j);
    } else {
      var k :| 0 <= k < j && Follows(events, rs, k, j) && Causes(events, rs, i, k);
      CausalityIsKept(sys, events, i, k);
      FollowsIsLater(sys, events, k, j);
    }
  }

  /** No clock leads the physical time of its last event by more than its offset, and one for a rollover. */
  lemma {:induction false} LeadIsBounded(sys: System, events: seq<Event>, j: nat)
    requires j < |events| && Results(sys, events)[j].Ok? && sys.configs(events[j].replica).maxOffset > 0
    ensures Results(sys, events)[j].time.wallTime <= events[j].physical + sys.configs(events[j].replica).maxOffset + 1
  {
    var rs := Results(sys, events);
    ResultAt(sys, events, j);
    var last := Clock(sys, events[..j], rs[..j], events[j].replica);
    match events[j].receives
    case None => TickAdvances(sys.configs(events[j].replica), last, last, events[j].physical);
    case Some(k) => TickAdvances(sys.configs(events[j].replica), last, rs[k].time, events[j].physical);
  }

  // ---------- Appending ----------

  /** The check on a new entry: all it points to happen before it. */
  predicate NextsBefore(nexts: seq<Timestamp>, time: Timestamp) {
    forall n :: n in nexts ==> Compare(n, time) < 0
  }

  /** An entry that passes the check is later than all it points to: what the graph of entries asks for. */
  lemma CheckedEntryFits(u: map<Hash, Entry>, e: Entry, nexts: seq<Timestamp>)
    requires Universe(u) && e.hash !in u
    requires forall n :: n in e.next ==> n in u && u[n].time in nexts
    requires NextsBefore(nexts, e.time)
    ensures Universe(u[e.hash := e])
  {
    forall n | n in e.next
      ensures Before(u[n].time, e.time)
    {
      CompareIsOrder(u[n].time, e.time, e.time);
    }
  }

  /** The entry of event `k` is in the log of a replica by the time of event `j`: the replica has
      made it, or has received it. */
  ghost predicate InLog(events: seq<Event>, rs: seq<Result>, replica: nat, j: nat, k: int)
    requires |rs| == |events| && j <= |events|
  {
    && 0 <= k < j && rs[k].Ok?
    && (|| events[k].replica == replica
        || exists m :: k < m < j && events[m].replica == replica && events[m].receives == Some(k) && rs[m].Ok?)
  }

  /** As long as the clock is kept, an entry appended on anything that is in the log passes the check. */
  lemma AppendPasses(sys: System, events: seq<Event>, j: nat, nexts: seq<Timestamp>)
    requires j < |events| && Results(sys, events)[j].Ok?
    requires var rs := Results(sys, events);
             forall n :: n in nexts ==> exists k :: InLog(events, rs, events[j].replica, j, k) && rs[k].time == n
    ensures NextsBefore(nexts, Results(sys, events)[j].time)
  {
    var rs := Results(sys, events);
    forall n | n in nexts
      ensures Compare(n, rs[j].time) < 0
    {
      var k :| InLog(events, rs, events[j].replica, j, k) && rs[k].time == n;
      if events[k].replica == events[j].replica {
        FollowsIsLater(sys, events, k, j);
      } else {
        var m :| k < m < j && events[m].replica == events[j].replica && events[m].receives == Some(k) && rs[m].Ok?;
        FollowsIsLater(sys, events, k, m);
        FollowsIsLater(sys, events, m, j);
      }
    }
  }

  /** A log that is opened again begins with a new clock, which knows nothing of its entries: the
      check then passes exactly if no head is ahead of the physical clock; or, if that has not gone on
      since, or has been set back, exactly if all are before the first tick of the new clock. */
  lemma AppendAfterOpening(config: Config, start: nat, physical: nat, nexts: seq<Timestamp>)
    requires Tick(config, Timestamp(start, 0), Timestamp(start, 0), physical).Ok?
    ensures NextsBefore(nexts, Tick(config, Timestamp(start, 0), Timestamp(start, 0), physical).time) <==>
            forall n :: n in nexts ==>
              if physical > start then n.wallTime < physical else Before(n, Timestamp(start, 1))
  {
  }
}
