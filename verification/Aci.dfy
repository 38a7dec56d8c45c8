/** The loop of the check-in client over the channels, with its counters and status files. */
module Aci {
  import opened Text
  import opened AciSchedule
  import StatBlock
  import SlotTable

  const HOST: CString := "winlink.org"

  class Client {
    const status: StatBlock.RmsStatus
    var files: Files
    var stats: Stats

    constructor (status: StatBlock.RmsStatus, files: Files)
      ensures this.status == status && this.files == files && stats == Stats(0, 0, 0, 0, 0)
    {
      this.status, this.files, stats := status, files, Stats(0, 0, 0, 0, 0);
    }

    /** wl2k_aci */
    method Wl2kAci(channelupd: Option<CString>, run: CheckIn) returns (rc: int)
      requires status.Valid() && stats == Stats(0, 0, 0, 0, 0)
      modifies this, status`hostIdx, status.aciHost, status.aci
      ensures rc == 0 && status.Valid()
      ensures files == FilesAfter(Interval(channelupd), run, old(files), |run.channels|)
      ensures stats == StatsOf(Verdicts(Interval(channelupd), run, old(files), |run.channels|))
      ensures status.Hosts() ==
        SlotTable.Apply(StatBlock.HOSTS, old(status.Hosts()),
                        StatBlock.Channels("winlink.org", stats.updated, stats.errors))
    {
      hide FilesAfter, StatsOf, Verdicts, SlotTable.Apply;
      var interval := Interval(channelupd);
      ghost var before := files;
      NoneYet(interval, run, before);
      var n := 0;
      while n < |run.channels|
        invariant 0 <= n <= |run.channels| && status.Valid()
        invariant files == FilesAfter(interval, run, before, n)
        invariant stats == StatsOf(Verdicts(interval, run, before, n))
        invariant status.Hosts() == old(status.Hosts())
      {
        OneMore(interval, run, before, n);
        Check(interval, run, n);
        n := n + 1;
      }
      status.SetChannelStats(HOST, stats.updated, stats.errors);
      rc := 0;
    }

    /** One channel: skipped if it is not active or not available, and updated if it is due. */
    method Check(interval: int, run: CheckIn, n: nat)
      requires n < |run.channels|
      modifies this`files, this`stats
      ensures var v := Decide(interval, run, old(files), n);
        && stats == Counted(old(stats), v)
        && files == if v.Sent? then Stamp(old(files), run.channels[n].name, run.now) else old(files)
    {
      var chnl := run.channels[n];
      stats := stats.(read := stats.read + 1);
      if LowerAll(chnl.active) != "yes" {
        return;
      }
      stats := stats.(active := stats.active + 1);
      if !Available(run.checks(n)) {
        stats := stats.(down := stats.down + 1);
        return;
      }
      var statusAge := run.now - files(chnl.name);
      if statusAge >= interval || ChannelsAge(run) < statusAge {
        if run.sends(n) {
          stats := stats.(updated := stats.updated + 1);
        } else {
          stats := stats.(errors := stats.errors + 1);
        }
        files := Stamp(files, chnl.name, run.now);
      }
    }
  }

  lemma NoneYet(interval: int, run: CheckIn, files: Files)
    ensures FilesAfter(interval, run, files, 0) == files
    ensures StatsOf(Verdicts(interval, run, files, 0)) == Stats(0, 0, 0, 0, 0)
  {
  }

  lemma OneMore(interval: int, run: CheckIn, files: Files, n: nat)
    requires n < |run.channels|
    ensures var before := FilesAfter(interval, run, files, n);
      var v := Decide(interval, run, before, n);
      && FilesAfter(interval, run, files, n + 1) ==
         (if v.Sent? then Stamp(before, run.channels[n].name, run.now) else before)
      && StatsOf(Verdicts(interval, run, files, n + 1)) == Counted(StatsOf(Verdicts(interval, run, files, n)), v)
  {
    var vs := Verdicts(interval, run, files, n);
    assert (vs + [VerdictOf(interval, run, files, n)])[..n] == vs;
  }
}
