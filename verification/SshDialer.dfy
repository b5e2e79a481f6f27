/** The dialer object (dialer.go: type sshDialer) with the monitor's loop, against module Monitor. */
module SshDialer {
  import opened Basics
  import opened MonitorRun = Monitor

  /** ssh_known_hosts in the data directory; it outlives the process. */
  class KnownHosts {
    var content: Option<string>
  }

  lemma {:induction false} StoppedStays(m: Monitor, rounds: seq<Round>, k: nat)
    requires k <= |rounds| && Passes(m, rounds[..k]).stopped
    ensures Passes(m, rounds) == Passes(m, rounds[..k])
  {
    if k < |rounds| {
      assert rounds[..|rounds| - 1][..k] == rounds[..k];
      StoppedStays(m, rounds[..|rounds| - 1], k);
    } else {
      assert rounds[..k] == rounds;
    }
  }

  class SshDialer {
    var client: Option<string>
    var status: Status
    const fingerprint: string
    const disk: KnownHosts

    /** Everything reported, published, cleared and saved so far. */
    ghost var seen: seq<Sight>

    /** The object with the monitor's local variables. */
    ghost function View(attempt: nat, delay: int, pinned: string, stopped: bool): Monitor
      reads this, disk
    {
      Monitor(attempt, delay, pinned, client, status, disk.content, seen, stopped)
    }

    constructor (disk: KnownHosts, fingerprint: string)
      ensures this.disk == disk && this.fingerprint == fingerprint && client == None
      ensures status == Status(Connecting, 0, 0) && seen == [Reported(status)]
    {
      this.disk := disk;
      this.fingerprint := fingerprint;
      client := None;
      status := Status(Connecting, 0, 0);
      seen := [Reported(Status(Connecting, 0, 0))];
    }

    method SetStatus(st: Status)
      modifies this`status, this`seen
      ensures status == st && seen == old(seen) + [Reported(st)]
    {
      status := st;
      seen := seen + [Reported(st)];
    }

    /** connectSSH: with no pinned key the key is trusted only once it is saved. */
    method ConnectSSH(pinned: string, net: Network) returns (c: Connected)
      modifies disk`content, this`seen
      ensures c == Connect(pinned, net)
      ensures disk.content == if Saves(pinned, net) then Some(net.key) else old(disk.content)
      ensures seen == old(seen) + if Saves(pinned, net) then [Saved(net.key)] else []
    {
      if net.before.Some? {
        return Refused(net.before.value);
      }
      if pinned != "" && net.key != pinned {
        return Refused(HostKeyMismatch);
      }
      if net.after.Some? {
        return Refused(net.after.value);
      }
      if pinned == "" {
        if !net.saves {
          return Refused(SshError);
        }
        disk.content := Some(net.key);
        seen := seen + [Saved(net.key)];
      }
      return Open;
    }

    /** The monitor's loop over any number of passes. */
    method RunMonitor(rounds: seq<Round>) returns (stopped: bool, ghost m: Monitor)
      requires Start(disk.content) == Some(View(0, 0, fingerprint, false))
      modifies this, disk
      ensures m == View(m.attempt, m.delay, m.pinned, stopped)
      ensures m == Passes(Start(old(disk.content)).value, rounds)
    {
      var attempt, delay, pinned := 0, 0, fingerprint;
      ghost var m0 := View(0, 0, fingerprint, false);
      stopped := false;
      m := m0;
      for i := 0 to |rounds|
        invariant m == View(attempt, delay, pinned, false) && m == Passes(m0, rounds[..i])
      {
        assert rounds[..i + 1][..i] == rounds[..i];
        ghost var was := m;
        m := Pass(was, rounds[i]);
        assert m == Passes(m0, rounds[..i + 1]);
        attempt, delay, pinned, stopped := OnePass(rounds[i], attempt, delay, pinned);
        if stopped {
          StoppedStays(m0, rounds, i + 1);
          return;
        }
      }
      assert rounds[..|rounds|] == rounds;
    }

    /** One pass of the loop. */
    method OnePass(r: Round, attempt0: nat, delay0: int, pinned0: string)
      returns (attempt: nat, delay: int, pinned: string, stopped: bool)
      modifies this, disk
      ensures View(attempt, delay, pinned, stopped) == Pass(old(View(attempt0, delay0, pinned0, false)), r)
    {
      attempt, delay, pinned, stopped := attempt0, delay0, pinned0, false;
      if client.Some? {
        if r.stopWaiting {
          return attempt, delay, pinned, true;
        }
        client := None;
        seen := seen + [Cleared];
        SetStatus(Status(Reconnecting, 0, 0));
      }
      if r.stopSleeping {
        return attempt, delay, pinned, true;
      }
      var c := ConnectSSH(pinned, r.net);
      if c.Refused? {
        attempt := attempt + 1;
        delay := ReconnectDelay(attempt) + r.jitter * MILLISECOND;
        SetStatus(Status(c.state, attempt, delay));
        return;
      }
      if r.stopDialing {
        return attempt, delay, pinned, true;
      }
      client := Some(r.net.key);
      seen := seen + [Published(r.net.key)];
      if pinned == "" {
        pinned := r.net.key;
      }
      attempt, delay := 0, 0;
      SetStatus(Status(Up, 0, 0));
    }
  }

  /** newSSHDialer: no dialer for a file that is there and blank, else one that starts with what the file pins. */
  method NewSshDialer(disk: KnownHosts) returns (d: SshDialer?)
    ensures d == null <==> Pinned(disk.content).None?
    ensures d == null <==> disk.content.Some? && Blank(disk.content.value)
    ensures d != null ==> fresh(d) && d.disk == disk && Start(disk.content) == Some(d.View(0, 0, d.fingerprint, false))
  {
    BlankIff(disk.content);
    if disk.content.None? {
      d := new SshDialer(disk, "");
    } else {
      var fp := Trim(disk.content.value);
      if fp == "" {
        return null;
      }
      d := new SshDialer(disk, fp);
    }
  }
}
