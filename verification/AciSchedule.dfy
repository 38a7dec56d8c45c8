/** When a channel is updated: one run of the check-in client over its channels, and what that means over many runs. */
module AciSchedule {
  import opened Text
  import HostLines

  const DFLT_CHANNELUPD: int := 7140

  /** An entry of the channel file: its AX.25 port, its call sign, and whether it is active. */
  datatype Channel = Channel(name: string, callsign: string, active: string)

  /**
    One run: the time, the modification time of the channel file if one is configured, the channels, and for each of
    them the exit status of its status program and whether sending its record succeeds.
   */
  datatype CheckIn =
    CheckIn(now: int, chanFile: Option<int>, channels: seq<Channel>, checks: nat -> int, sends: nat -> bool)

  /** The modification times of the status files, 0 for those that are not there. */
  type Files = string -> int

  /** The configured interval, or the default unless it is a positive number. */
  function Interval(channelupd: Option<CString>): (r: int)
    ensures r > 0
  {
    if channelupd.None? || HostLines.Atoi(channelupd.value) <= 0 then DFLT_CHANNELUPD
    else HostLines.Atoi(channelupd.value)
  }

  predicate Active(c: Channel) { LowerAll(c.active) == "yes" }

  predicate Available(status: int) { status == 0 }

  function ChannelsAge(run: CheckIn): int { if run.chanFile.Some? then run.now - run.chanFile.value else 0 }

  /** The status file is old, or older than the channel file. */
  predicate Due(interval: int, run: CheckIn, stat: int) {
    run.now - stat >= interval || ChannelsAge(run) < run.now - stat
  }

  datatype Verdict = Inactive | Down | NotDue | Sent(ok: bool)

  function Decide(interval: int, run: CheckIn, files: Files, i: nat): Verdict
    requires i < |run.channels|
  {
    var c := run.channels[i];
    if !Active(c) then Inactive
    else if !Available(run.checks(i)) then Down
    else if !Due(interval, run, files(c.name)) then NotDue
    else Sent(run.sends(i))
  }

  function Stamp(files: Files, name: string, now: int): Files {
    (n: string) => if n == name then now else files(n)
  }

  /** The status files after the first n channels of a run: what was sent for is touched, also after an error. */
  function FilesAfter(interval: int, run: CheckIn, files: Files, n: nat): Files
    requires n <= |run.channels|
  {
    if n == 0 then files
    else
      var before := FilesAfter(interval, run, files, n - 1);
      if Decide(interval, run, before, n - 1).Sent? then Stamp(before, run.channels[n - 1].name, run.now) else before
  }

  function VerdictOf(interval: int, run: CheckIn, files: Files, i: nat): Verdict
    requires i < |run.channels|
  {
    Decide(interval, run, FilesAfter(interval, run, files, i), i)
  }

  function Verdicts(interval: int, run: CheckIn, files: Files, n: nat): (vs: seq<Verdict>)
    requires n <= |run.channels|
    ensures |vs| == n
  {
    if n == 0 then [] else Verdicts(interval, run, files, n - 1) + [VerdictOf(interval, run, files, n - 1)]
  }

  datatype Stats = Stats(read: nat, active: nat, down: nat, updated: nat, errors: nat)

  function Counted(s: Stats, v: Verdict): Stats {
    match v
    case Inactive => s.(read := s.read + 1)
    case Down => s.(read := s.read + 1, active := s.active + 1, down := s.down + 1)
    case NotDue => s.(read := s.read + 1, active := s.active + 1)
    case Sent(true) => s.(read := s.read + 1, active := s.active + 1, updated := s.updated + 1)
    case Sent(false) => s.(read := s.read + 1, active := s.active + 1, errors := s.errors + 1)
  }

  /** How often a verdict was given. */
  function Tally(vs: seq<Verdict>, v: Verdict): nat {
    if vs == [] then 0 else Tally(vs[..|vs| - 1], v) + (if vs[|vs| - 1] == v then 1 else 0)
  }

  function StatsOf(vs: seq<Verdict>): Stats {
    if vs == [] then Stats(0, 0, 0, 0, 0) else Counted(StatsOf(vs[..|vs| - 1]), vs[|vs| - 1])
  }

  /** The counters count the verdicts, and every active channel is down, not due, updated or in error. */
  lemma {:induction false} StatsCount(vs: seq<Verdict>)
    ensures var s := StatsOf(vs);
      && s.read == |vs| && s.down == Tally(vs, Down) && s.updated == Tally(vs, Sent(true))
      && s.errors == Tally(vs, Sent(false)) && s.active == s.read - Tally(vs, Inactive)
      && s.active == s.down + Tally(vs, NotDue) + s.updated + s.errors
  {
    if vs != [] {
      StatsCount(vs[..|vs| - 1]);
    }
  }

  // ----- One run -----

  /** The entry is active and its status program says that it is up. */
  predicate ReadyAt(run: CheckIn, i: nat)
    requires i < |run.channels|
  {
    Active(run.channels[i]) && Available(run.checks(i))
  }

  /** One of the first n entries is ready on the port. */
  predicate ReadyBefore(run: CheckIn, n: nat, name: string)
    requires n <= |run.channels|
  {
    exists i: nat :: i < n && run.channels[i].name == name && ReadyAt(run, i)
  }

  lemma ReadyBeforeNext(run: CheckIn, n: nat, name: string)
    requires n < |run.channels|
    ensures ReadyBefore(run, n + 1, name) <==>
            ReadyBefore(run, n, name) || (run.channels[n].name == name && ReadyAt(run, n))
  {
  }

  /** All entries of a port share its status file, which the first that is ready touches if it is due. */
  lemma {:induction false} StatusFile(interval: int, run: CheckIn, files: Files, n: nat, name: string)
    requires n <= |run.channels|
    ensures FilesAfter(interval, run, files, n)(name) ==
            if ReadyBefore(run, n, name) && Due(interval, run, files(name)) then run.now else files(name)
  {
    hide Due, ReadyAt, ReadyBefore;
    if n == 0 {
      NoneReadyYet(run, name);
    } else {
      StatusFile(interval, run, files, n - 1, name);
      ReadyBeforeNext(run, n - 1, name);
      SentMeans(interval, run, FilesAfter(interval, run, files, n - 1), n - 1);
    }
  }

  lemma NoneReadyYet(run: CheckIn, name: string)
    ensures !ReadyBefore(run, 0, name)
  {
  }

  lemma SentMeans(interval: int, run: CheckIn, files: Files, i: nat)
    requires i < |run.channels|
    ensures Decide(interval, run, files, i).Sent? <==>
            ReadyAt(run, i) && Due(interval, run, files(run.channels[i].name))
  {
  }

  /**
    The verdict on an entry, from the status files before the run: of those that are ready on one port only the first is
    sent, unless the channel file has a time in the future.
   */
  lemma VerdictExactly(interval: int, run: CheckIn, files: Files, j: nat)
    requires interval > 0 && j < |run.channels|
    ensures
      var name := run.channels[j].name;
      var due := Due(interval, run, files(name)) && (ReadyBefore(run, j, name) ==> ChannelsAge(run) < 0);
      VerdictOf(interval, run, files, j) ==
        if !Active(run.channels[j]) then Inactive
        else if !Available(run.checks(j)) then Down
        else if due then Sent(run.sends(j)) else NotDue
  {
    hide Active, ReadyBefore, FilesAfter;
    StatusFile(interval, run, files, j, run.channels[j].name);
  }

  /** A channel is switched on by the word yes, in letters of either case. */
  predicate SaysYes(s: string) {
    |s| == 3 && s[0] in {'y', 'Y'} && s[1] in {'e', 'E'} && s[2] in {'s', 'S'}
  }

  lemma ActiveIs(c: Channel)
    ensures Active(c) <==> SaysYes(c.active)
  {
    var a, l := c.active, LowerAll(c.active);
    if |a| == 3 {
      assert l == [Lower(a[0]), Lower(a[1]), Lower(a[2])];
      assert l == "yes" <==> l[0] == 'y' && l[1] == 'e' && l[2] == 's';
    }
  }

  /** The verdict from the texts, exit statuses and times alone. */
  lemma VerdictInFull(interval: int, run: CheckIn, files: Files, j: nat)
    requires interval > 0 && j < |run.channels|
    ensures
      var c := run.channels[j];
      var age, fileAge := run.now - files(c.name), if run.chanFile.Some? then run.now - run.chanFile.value else 0;
      var earlier := exists i: nat :: i < j && run.channels[i].name == c.name
                                      && SaysYes(run.channels[i].active) && run.checks(i) == 0;
      VerdictOf(interval, run, files, j) ==
        if !SaysYes(c.active) then Inactive
        else if run.checks(j) != 0 then Down
        else if (age >= interval || fileAge < age) && (earlier ==> fileAge < 0) then Sent(run.sends(j))
        else NotDue
  {
    hide Active, SaysYes, VerdictOf;
    VerdictExactly(interval, run, files, j);
    ActiveIs(run.channels[j]);
    forall i: nat | i < j
      ensures ReadyAt(run, i) <==> SaysYes(run.channels[i].active) && run.checks(i) == 0
    {
      ActiveIs(run.channels[i]);
    }
  }

  /** The interval is the number configured, and 7140 seconds without one that is positive. */
  lemma IntervalIs(text: CString)
    ensures Interval(None) == 7140
    ensures Interval(Some(text)) == if HostLines.Atoi(text) > 0 then HostLines.Atoi(text) else 7140
  {
  }

  /** So of two channels on one port the second is never sent while the first is ready, in any run. */
  lemma SecondOnPortStarves(interval: int, runs: seq<CheckIn>, files: Files, k: nat, i: nat, j: nat)
    requires interval > 0 && k < |runs| && i < j < |runs[k].channels| && ChannelsAge(runs[k]) >= 0
    requires runs[k].channels[i].name == runs[k].channels[j].name && ReadyAt(runs[k], i)
    ensures !VerdictOf(interval, runs[k], StateAfter(interval, runs[..k], files), j).Sent?
  {
    VerdictExactly(interval, runs[k], StateAfter(interval, runs[..k], files), j);
  }

  /** Two channels that differ in their call signs only. */
  lemma TwoOnOnePort(interval: int, run: CheckIn, files: Files)
    requires interval > 0 && ChannelsAge(run) >= 0 && run.checks(0) == run.checks(1) == 0
    requires run.channels == [Channel("radio", "N0CALL-10", "yes"), Channel("radio", "N0CALL-11", "yes")]
    ensures VerdictOf(interval, run, files, 0).Sent? <==> Due(interval, run, files("radio"))
    ensures VerdictOf(interval, run, files, 1) == NotDue
  {
    assert ReadyAt(run, 0) && ReadyAt(run, 1);
    VerdictExactly(interval, run, files, 0);
    VerdictExactly(interval, run, files, 1);
  }

  // ----- Many runs -----

  function StateAfter(interval: int, runs: seq<CheckIn>, files: Files): Files {
    if runs == [] then files
    else
      var r := runs[|runs| - 1];
      FilesAfter(interval, r, StateAfter(interval, runs[..|runs| - 1], files), |r.channels|)
  }

  /** The run sends an update for the port. */
  ghost predicate Updates(interval: int, runs: seq<CheckIn>, files: Files, k: nat, name: string)
    requires k < |runs|
  {
    exists i :: 0 <= i < |runs[k].channels| && runs[k].channels[i].name == name
                && VerdictOf(interval, runs[k], StateAfter(interval, runs[..k], files), i).Sent?
  }

  /** An entry of the port is ready in the run. */
  predicate Ready(run: CheckIn, name: string) {
    ReadyBefore(run, |run.channels|, name)
  }

  lemma {:induction false} FirstReady(run: CheckIn, n: nat, name: string) returns (i: nat)
    requires n <= |run.channels| && ReadyBefore(run, n, name)
    ensures i < n && run.channels[i].name == name && ReadyAt(run, i) && !ReadyBefore(run, i, name)
  {
    hide ReadyAt, ReadyBefore;
    if n == 0 {
      NoneReadyYet(run, name);
      assert false;
    } else {
      ReadyBeforeNext(run, n - 1, name);
      if ReadyBefore(run, n - 1, name) {
        i := FirstReady(run, n - 1, name);
      } else {
        i := n - 1;
      }
    }
  }

  /** A run updates a port exactly if it is ready and due, and then its status file has the time of the run. */
  lemma UpdatesExactly(interval: int, runs: seq<CheckIn>, files: Files, k: nat, name: string)
    requires k < |runs|
    ensures var stat := StateAfter(interval, runs[..k], files)(name);
      && (Updates(interval, runs, files, k, name) <==> Ready(runs[k], name) && Due(interval, runs[k], stat))
      && StateAfter(interval, runs[..k + 1], files)(name) ==
         if Updates(interval, runs, files, k, name) then runs[k].now else stat
  {
    hide Due, ReadyAt, ReadyBefore, Decide, FilesAfter;
    var r, before := runs[k], StateAfter(interval, runs[..k], files);
    assert runs[..k + 1][..k] == runs[..k] && runs[..k + 1][k] == r;
    StatusFile(interval, r, before, |r.channels|, name);
    if Ready(r, name) && Due(interval, r, before(name)) {
      var i := FirstReady(r, |r.channels|, name);
      StatusFile(interval, r, before, i, name);
      SentMeans(interval, r, FilesAfter(interval, r, before, i), i);
    }
    if Updates(interval, runs, files, k, name) {
      var i: nat :| i < |r.channels| && r.channels[i].name == name && VerdictOf(interval, r, before, i).Sent?;
      SentMeans(interval, r, FilesAfter(interval, r, before, i), i);
      ReadyAmong(r, i);
      NotDueStays(interval, r, before, i, name);
    }
  }

  lemma ReadyAmong(run: CheckIn, i: nat)
    requires i < |run.channels| && ReadyAt(run, i)
    ensures Ready(run, run.channels[i].name)
  {
  }

  lemma NotDueStays(interval: int, run: CheckIn, files: Files, i: nat, name: string)
    requires i <= |run.channels| && Due(interval, run, FilesAfter(interval, run, files, i)(name))
    ensures Due(interval, run, files(name))
  {
    hide Due, ReadyBefore, FilesAfter;
    StatusFile(interval, run, files, i, name);
  }

  lemma {:induction false} LastUpdateCounts(interval: int, runs: seq<CheckIn>, files: Files, i: nat, j: nat,
                                            name: string)
    requires i < j <= |runs| && Updates(interval, runs, files, i, name)
    requires forall k :: i < k < j ==> !Updates(interval, runs, files, k, name)
    ensures StateAfter(interval, runs[..j], files)(name) == runs[i].now
    decreases j
  {
    hide Updates, Ready, Due;
    UpdatesExactly(interval, runs, files, j - 1, name);
    if i < j - 1 {
      LastUpdateCounts(interval, runs, files, i, j - 1, name);
    }
  }

  /**
    Two successive updates of a port are at least the interval apart, unless the channel file was modified after the
    first of them.
   */
  lemma UpdatesAreApart(interval: int, runs: seq<CheckIn>, files: Files, i: nat, j: nat, name: string)
    requires i < j < |runs|
    requires Updates(interval, runs, files, i, name) && Updates(interval, runs, files, j, name)
    requires forall k :: i < k < j ==> !Updates(interval, runs, files, k, name)
    requires runs[j].chanFile.Some?
    ensures runs[j].now - runs[i].now >= interval || runs[j].chanFile.value > runs[i].now
  {
    LastUpdateCounts(interval, runs, files, i, j, name);
    UpdatesExactly(interval, runs, files, j, name);
  }

  /**
    With no channel file configured the interval plays no part: every later run updates again, save in the same second.
   */
  lemma WithoutChannelFile(interval: int, runs: seq<CheckIn>, files: Files, i: nat, name: string)
    requires i + 1 < |runs| && Updates(interval, runs, files, i, name)
    requires runs[i + 1].chanFile.None? && Ready(runs[i + 1], name) && interval > 0
    ensures Updates(interval, runs, files, i + 1, name) <==> runs[i + 1].now > runs[i].now
  {
    LastUpdateCounts(interval, runs, files, i, i + 1, name);
    UpdatesExactly(interval, runs, files, i + 1, name);
  }

  predicate Close(runs: seq<CheckIn>, k: nat, p: int)
    requires k + 1 < |runs|
  {
    runs[k].now <= runs[k + 1].now <= runs[k].now + p
  }

  /** Runs from i to j come at most p apart. */
  predicate Polled(runs: seq<CheckIn>, i: nat, j: nat, p: int)
    requires j < |runs|
  {
    forall k: nat :: i <= k < j ==> Close(runs, k, p)
  }

  /**
    A port that stays ready is updated again within the interval and the time between two runs, as soon as the runs
    have gone on that long.
   */
  lemma {:induction false} UpdatedInTime(interval: int, runs: seq<CheckIn>, files: Files, i: nat, j: nat, p: int,
                                         name: string)
    returns (k: nat)
    requires i < j < |runs| && interval > 0 && Polled(runs, i, j, p)
    requires Updates(interval, runs, files, i, name) && forall m :: i < m <= j ==> Ready(runs[m], name)
    requires runs[j].now - runs[i].now >= interval
    ensures i < k <= j && Updates(interval, runs, files, k, name)
    ensures runs[k].now - runs[i].now < interval + p
    decreases j
  {
    hide Updates, Ready;
    if runs[j - 1].now - runs[i].now >= interval {
      k := UpdatedInTime(interval, runs, files, i, j - 1, p, name);
    } else {
      NotLater(runs, i, j - 1, p);
      assert Close(runs, j - 1, p);
      if m :| i < m < j && Updates(interval, runs, files, m, name) {
        k := m;
      } else {
        k := j;
        OverdueIsUpdated(interval, runs, files, i, j, name);
      }
    }
  }

  lemma OverdueIsUpdated(interval: int, runs: seq<CheckIn>, files: Files, i: nat, j: nat, name: string)
    requires i < j < |runs| && Updates(interval, runs, files, i, name) && Ready(runs[j], name)
    requires forall m :: i < m < j ==> !Updates(interval, runs, files, m, name)
    requires runs[j].now - runs[i].now >= interval
    ensures Updates(interval, runs, files, j, name)
  {
    LastUpdateCounts(interval, runs, files, i, j, name);
    UpdatesExactly(interval, runs, files, j, name);
  }

  lemma {:induction false} NotLater(runs: seq<CheckIn>, i: nat, j: nat, p: int)
    requires i <= j < |runs| && Polled(runs, i, j, p)
    ensures forall m :: i <= m <= j ==> runs[m].now <= runs[j].now
  {
    if i < j {
      assert Close(runs, j - 1, p);
      NotLater(runs, i, j - 1, p);
    }
  }
}
