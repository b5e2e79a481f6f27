/** The SSH monitor (dialer.go: newSSHDialer, monitor, reconnectDelay, readKnownHostFingerprint, the host
    key callback and the saving of the key in connectSSH). The network side of a connect is a parameter. */
module Monitor {
  import opened Basics

  // ---------------------------------------------------------------- backoff

  const BASE_DELAY: int := SECOND
  const MAX_DELAY: int := 60 * SECOND

  /** baseDelay << shift in a 64-bit integer. */
  function Shifted(shift: nat): int {
    Wrap64(BASE_DELAY * Pow2(shift))
  }

  function ReconnectDelay(attempt: nat): int {
    var shift := if attempt > 6 then 6 else attempt;
    var delay := Shifted(shift);
    if delay > MAX_DELAY then MAX_DELAY else delay
  }

  lemma {:induction false} Pow2Grows(n: nat, k: nat)
    requires n <= k
    ensures Pow2(n) <= Pow2(k)
  {
    if n < k {
      Pow2Grows(n, k - 1);
    }
  }

  lemma Powers()
    ensures Pow2(0) == 1 && Pow2(1) == 2 && Pow2(2) == 4 && Pow2(3) == 8 && Pow2(4) == 16 && Pow2(5) == 32 && Pow2(6) == 64
  {
  }

  /** For every attempt: doubling from one second, capped at a minute, and no overflow. */
  lemma DelayIsCappedDoubling(attempt: nat)
    ensures ReconnectDelay(attempt) == (if Pow2(attempt) < 60 then Pow2(attempt) else 60) * SECOND
  {
    Powers();
    if attempt > 6 {
      Pow2Grows(6, attempt);
    }
  }

  /** Without the cap on the shift the delay would leave the 64-bit range, from attempt 34 on. */
  lemma UncappedOverflowsIff(attempt: nat)
    ensures Shifted(attempt) == BASE_DELAY * Pow2(attempt) <==> attempt < 34
  {
    Powers();
    Pow2Sum(6, 6);
    Pow2Sum(12, 12);
    Pow2Sum(24, 6);
    Pow2Sum(30, 3);
    assert Pow2(33) == 0x2_0000_0000;
    assert Pow2(34) == 2 * Pow2(33);
    if attempt < 34 {
      Pow2Grows(attempt, 33);
    } else {
      Pow2Grows(34, attempt);
    }
  }

  // ---------------------------------------------------------------- the saved fingerprint

  /** The ASCII part of what strings.TrimSpace removes: blank, tab, line feed, vertical tab, form feed, return. */
  predicate IsSpace(c: char) {
    c == ' ' || '\t' <= c <= '\r'
  }

  function TrimLeft(s: string): string {
    if s != "" && IsSpace(s[0]) then TrimLeft(s[1..]) else s
  }

  function TrimRight(s: string): string {
    if s != "" && IsSpace(s[|s| - 1]) then TrimRight(s[..|s| - 1]) else s
  }

  function Trim(s: string): string {
    TrimRight(TrimLeft(s))
  }

  /** What sshFingerprint produces: "SHA256:" and base64, so not empty and without white space. */
  predicate IsFingerprint(k: string) {
    k != "" && forall i | 0 <= i < |k| :: !IsSpace(k[i])
  }

  /** The trusted fingerprint in the file: "" without a file, None for a blank file. */
  function Pinned(file: Option<string>): Option<string> {
    if file.None? then Some("")
    else if Trim(file.value) == "" then None
    else Some(Trim(file.value))
  }

  // ---------------------------------------------------------------- one pass of the monitor

  datatype TunnelState = Connecting | Up | Reconnecting | KeyRejected | Unreachable | HostKeyMismatch | SshError

  datatype Status = Status(state: TunnelState, attempt: nat, retry: int)

  predicate IsFailure(s: TunnelState) {
    s.KeyRejected? || s.Unreachable? || s.HostKeyMismatch? || s.SshError?
  }

  /** What the outside does to one connect: `before` fails it before the server shows its `key`, `after`
      fails the handshake after that, and `saves` is whether the file can be written. */
  datatype Network = Network(before: Option<TunnelState>, key: string, after: Option<TunnelState>, saves: bool)

  /** One pass: where stop() lands in it, if at all, the connect, and the jitter in milliseconds. */
  datatype Round = Round(stopWaiting: bool, stopSleeping: bool, stopDialing: bool, net: Network, jitter: nat)

  predicate IsRound(r: Round) {
    && IsFingerprint(r.net.key) && r.jitter < 500
    && (r.net.before.Some? ==> r.net.before.value.Unreachable? || r.net.before.value.SshError?)
    && (r.net.after.Some? ==> r.net.after.value.KeyRejected? || r.net.after.value.SshError?)
  }

  ghost predicate AreRounds(rounds: seq<Round>) {
    forall r | r in rounds :: IsRound(r)
  }

  /** What can be seen of the monitor: statuses, clients, writes of the key file. */
  datatype Sight = Reported(status: Status) | Published(key: string) | Cleared | Saved(key: string)

  datatype Monitor = Monitor(attempt: nat, delay: int, pinned: string, client: Option<string>, status: Status,
                             file: Option<string>, seen: seq<Sight>, stopped: bool)

  /** connectSSH: the failure state, or success; and the file it leaves. */
  datatype Connected = Refused(state: TunnelState) | Open

  function Connect(pinned: string, net: Network): Connected {
    if net.before.Some? then Refused(net.before.value)
    else if pinned != "" && net.key != pinned then Refused(HostKeyMismatch)
    else if net.after.Some? then Refused(net.after.value)
    else if pinned == "" && !net.saves then Refused(SshError)
    else Open
  }

  predicate Saves(pinned: string, net: Network) {
    Connect(pinned, net).Open? && pinned == ""
  }

  function SetStatus(m: Monitor, st: Status): Monitor {
    m.(status := st, seen := m.seen + [Reported(st)])
  }

  /** Waiting on the published client and clearing it. */
  function Waited(m: Monitor): Monitor {
    if m.client.None? then m
    else SetStatus(m.(client := None, seen := m.seen + [Cleared]), Status(Reconnecting, 0, 0))
  }

  function FailedConnect(m: Monitor, state: TunnelState, jitter: nat): Monitor {
    var attempt := m.attempt + 1;
    var delay := ReconnectDelay(attempt) + jitter * MILLISECOND;
    SetStatus(m.(attempt := attempt, delay := delay), Status(state, attempt, delay))
  }

  function SavedKey(m: Monitor, key: string): Monitor {
    m.(file := Some(key), seen := m.seen + [Saved(key)])
  }

  function Publish(m: Monitor, key: string): Monitor {
    SetStatus(m.(client := Some(key), seen := m.seen + [Published(key)],
                 pinned := if m.pinned == "" then key else m.pinned, attempt := 0, delay := 0),
              Status(Up, 0, 0))
  }

  /** The dial of a pass. */
  function Dialed(m: Monitor, r: Round): Monitor {
    var c := Connect(m.pinned, r.net);
    if c.Refused? then FailedConnect(m, c.state, r.jitter)
    else
      var saved := if Saves(m.pinned, r.net) then SavedKey(m, r.net.key) else m;
      if r.stopDialing then saved.(stopped := true) else Publish(saved, r.net.key)
  }

  function Pass(m: Monitor, r: Round): Monitor {
    if m.stopped then m
    else if m.client.Some? && r.stopWaiting then m.(stopped := true)
    else if r.stopSleeping then Waited(m).(stopped := true)
    else Dialed(Waited(m), r)
  }

  function Passes(m: Monitor, rounds: seq<Round>): Monitor {
    if rounds == [] then m else Pass(Passes(m, rounds[..|rounds| - 1]), rounds[|rounds| - 1])
  }

  /** newSSHDialer: None for a blank file. */
  function Start(file: Option<string>): Option<Monitor> {
    if Pinned(file).None? then None
    else
      var st := Status(Connecting, 0, 0);
      Some(Monitor(0, 0, Pinned(file).value, None, st, file, [Reported(st)], false))
  }

  // ---------------------------------------------------------------- statuses and clients along a run

  /** The failed connects in a row at the end of what was seen. */
  function FailuresInARow(seen: seq<Sight>): nat {
    if seen == [] then 0
    else
      var last, before := seen[|seen| - 1], seen[..|seen| - 1];
      if last.Reported? && IsFailure(last.status.state) then FailuresInARow(before) + 1
      else if last.Published? then 0
      else FailuresInARow(before)
  }

  /** Whether a client is published at the end of what was seen. */
  predicate HasClient(seen: seq<Sight>) {
    if seen == [] then false
    else
      var last, before := seen[|seen| - 1], seen[..|seen| - 1];
      if last.Published? then true else if last.Cleared? then false else HasClient(before)
  }

  function CappedDoubling(n: nat): int {
    (if Pow2(n) < 60 then Pow2(n) else 60) * SECOND
  }

  /** The delay for a number of failures in a row, up to 499 ms late; none without a failure. */
  predicate RightDelay(delay: int, inARow: nat) {
    if inARow == 0 then delay == 0
    else CappedDoubling(inARow) <= delay <= CappedDoubling(inARow) + 499 * MILLISECOND
  }

  /** A failure status carries its number in the row and the delay for that number, any other neither. */
  predicate RightStatus(st: Status, inARow: nat) {
    if IsFailure(st.state) then st.attempt == inARow && RightDelay(st.retry, inARow) else st.attempt == 0 && st.retry == 0
  }

  /** The last status reported. */
  function LastStatus(seen: seq<Sight>): Option<Status> {
    if seen == [] then None
    else
      var last, before := seen[|seen| - 1], seen[..|seen| - 1];
      if last.Reported? then Some(last.status) else LastStatus(before)
  }

  /** What a report follows: "connecting" comes first of all, "reconnecting" when a client was cleared, "connected"
      when one was published. */
  predicate RightPlace(st: Status, before: seq<Sight>) {
    && (st.state.Connecting? <==> before == [])
    && (st.state.Reconnecting? <==> before != [] && before[|before| - 1].Cleared?)
    && (st.state.Up? <==> before != [] && before[|before| - 1].Published?)
  }

  /** At every point of a run: right failure statuses, and never a second client beside a published one. */
  ghost predicate Sane(seen: seq<Sight>) {
    seen == [] ||
    (var last, before := seen[|seen| - 1], seen[..|seen| - 1];
     && Sane(before)
     && (last.Reported? ==> RightStatus(last.status, FailuresInARow(seen)) && RightPlace(last.status, before))
     && (last.Published? ==> !HasClient(before))
     && (last.Cleared? ==> HasClient(before)))
  }

  /** The head of the monitor's loop. */
  ghost predicate AtHead(m: Monitor) {
    && Sane(m.seen)
    && m.attempt == FailuresInARow(m.seen) && RightDelay(m.delay, m.attempt)
    && m.client.Some? == HasClient(m.seen)
    && LastStatus(m.seen) == Some(m.status)
    && m.seen != [] && (m.seen[|m.seen| - 1].Reported? || m.seen[|m.seen| - 1].Saved?)
    && (!m.stopped ==> (m.client.Some? <==> m.status.state.Up?))
  }

  lemma SeenMore(seen: seq<Sight>, x: Sight)
    ensures (seen + [x])[..|seen|] == seen && (seen + [x])[|seen|] == x
  {
  }

  lemma WaitedKeeps(m: Monitor)
    requires AtHead(m) && !m.stopped
    ensures AtHead(Waited(m)) && Waited(m).client.None?
  {
    if m.client.Some? {
      SeenMore(m.seen, Cleared);
      assert Sane(m.seen + [Cleared]) && !HasClient(m.seen + [Cleared]);
      assert FailuresInARow(m.seen + [Cleared]) == FailuresInARow(m.seen);
      SeenMore(m.seen + [Cleared], Reported(Status(Reconnecting, 0, 0)));
    }
  }

  lemma FailedConnectKeeps(m: Monitor, state: TunnelState, jitter: nat)
    requires AtHead(m) && m.client.None? && IsFailure(state) && jitter < 500
    ensures AtHead(FailedConnect(m, state, jitter))
  {
    DelayIsCappedDoubling(m.attempt + 1);
    SeenMore(m.seen, Reported(FailedConnect(m, state, jitter).status));
  }

  lemma SavedKeyKeeps(m: Monitor, key: string)
    requires AtHead(m)
    ensures AtHead(SavedKey(m, key))
  {
    SeenMore(m.seen, Saved(key));
  }

  lemma PublishKeeps(m: Monitor, key: string)
    requires AtHead(m) && m.client.None?
    ensures AtHead(Publish(m, key))
  {
    SeenMore(m.seen, Published(key));
    assert Sane(m.seen + [Published(key)]) && HasClient(m.seen + [Published(key)]);
    assert FailuresInARow(m.seen + [Published(key)]) == 0;
    SeenMore(m.seen + [Published(key)], Reported(Status(Up, 0, 0)));
  }

  lemma DialedKeeps(m: Monitor, r: Round)
    requires AtHead(m) && m.client.None? && !m.stopped && IsRound(r)
    ensures AtHead(Dialed(m, r))
  {
    var c := Connect(m.pinned, r.net);
    if c.Refused? {
      FailedConnectKeeps(m, c.state, r.jitter);
    } else {
      SavedKeyKeeps(m, r.net.key);
      var saved := if Saves(m.pinned, r.net) then SavedKey(m, r.net.key) else m;
      if !r.stopDialing {
        PublishKeeps(saved, r.net.key);
      }
    }
  }

  lemma PassKeeps(m: Monitor, r: Round)
    requires AtHead(m) && IsRound(r)
    ensures AtHead(Pass(m, r))
  {
    if !m.stopped && !(m.client.Some? && r.stopWaiting) {
      WaitedKeeps(m);
      if !r.stopSleeping {
        DialedKeeps(Waited(m), r);
      }
    }
  }

  lemma StartsAtHead(file: Option<string>)
    requires Start(file).Some?
    ensures AtHead(Start(file).value)
  {
    var seen := [Reported(Status(Connecting, 0, 0))];
    assert seen[..0] == [];
    assert Sane([]) && Sane(seen) && FailuresInARow(seen) == 0 && !HasClient(seen);
  }

  /** In every run: at each loop head a client is published exactly when the status says connected; the
      n-th failure in a row is reported as number n with its delay; a client is published only after the
      previous one was waited on and cleared. */
  lemma {:induction false} MonitorRuns(file: Option<string>, rounds: seq<Round>)
    requires Start(file).Some? && AreRounds(rounds)
    ensures AtHead(Passes(Start(file).value, rounds))
  {
    if rounds == [] {
      StartsAtHead(file);
    } else {
      assert rounds == rounds[..|rounds| - 1] + [rounds[|rounds| - 1]];
      MonitorRuns(file, rounds[..|rounds| - 1]);
      PassKeeps(Passes(Start(file).value, rounds[..|rounds| - 1]), rounds[|rounds| - 1]);
    }
  }

  // ---------------------------------------------------------------- one key, across restarts

  predicate ShowsKey(x: Sight) {
    x.Published? || x.Saved?
  }

  /** Every key published or saved is k. */
  ghost predicate OnlyKey(seen: seq<Sight>, k: string) {
    forall x | x in seen && ShowsKey(x) :: x.key == k
  }

  ghost predicate NoKey(seen: seq<Sight>) {
    forall x | x in seen :: !ShowsKey(x)
  }

  ghost predicate NeverSaves(seen: seq<Sight>) {
    forall x | x in seen :: !x.Saved?
  }

  /** The file is written at most once, before any client is published. */
  ghost predicate SavedFirst(seen: seq<Sight>) {
    forall i, j | 0 <= i < j < |seen| && seen[j].Saved? :: !ShowsKey(seen[i])
  }

  /** Nothing but blanks, tabs, line feeds, vertical tabs, form feeds and returns. */
  predicate Blank(s: string) {
    forall i | 0 <= i < |s| :: s[i] as int in {32, 9, 10, 11, 12, 13}
  }

  lemma {:induction false} TrimLeftDrops(pad: string, s: string)
    requires Blank(pad) && (s == "" || !IsSpace(s[0]))
    ensures TrimLeft(pad + s) == s
  {
    if pad == "" {
      assert pad + s == s;
    } else {
      assert (pad + s)[1..] == pad[1..] + s;
      TrimLeftDrops(pad[1..], s);
    }
  }

  lemma {:induction false} TrimRightDrops(s: string, pad: string)
    requires Blank(pad) && (s == "" || !IsSpace(s[|s| - 1]))
    ensures TrimRight(s + pad) == s
  {
    if pad == "" {
      assert s + pad == s;
    } else {
      assert (s + pad)[..|s + pad| - 1] == s + pad[..|pad| - 1];
      TrimRightDrops(s, pad[..|pad| - 1]);
    }
  }

  /** A fingerprint with any white space around it, as hand-edited files have it, pins that fingerprint; a file
      of nothing but white space is an error and not a first use. */
  lemma PaddedReadsBack(left: string, k: string, right: string)
    requires Blank(left) && Blank(right) && (k == "" || IsFingerprint(k))
    ensures Pinned(Some(left + k + right)) == if k == "" then None else Some(k)
  {
    assert left + k + right == left + (k + right);
    if k == "" {
      assert left + (k + right) == (left + right) + "";
      TrimLeftDrops(left + right, "");
    } else {
      TrimLeftDrops(left, k + right);
      TrimRightDrops(k, right);
    }
  }

  lemma {:induction false} TrimLeftBlank(s: string)
    ensures TrimLeft(s) == "" <==> Blank(s)
    ensures TrimLeft(s) != "" ==> !IsSpace(TrimLeft(s)[0])
  {
    if s != "" && IsSpace(s[0]) {
      TrimLeftBlank(s[1..]);
      assert Blank(s) <==> Blank(s[1..]) by {
        assert s == [s[0]] + s[1..];
      }
    }
  }

  lemma {:induction false} TrimRightKeepsStart(s: string)
    requires s != "" && !IsSpace(s[0])
    ensures TrimRight(s) != ""
  {
    if IsSpace(s[|s| - 1]) {
      TrimRightKeepsStart(s[..|s| - 1]);
    }
  }

  /** Only a file of nothing but white space, or an empty one, is refused. */
  lemma BlankIff(file: Option<string>)
    ensures Pinned(file).None? <==> file.Some? && Blank(file.value)
  {
    if file.Some? {
      TrimLeftBlank(file.value);
      if TrimLeft(file.value) != "" {
        TrimRightKeepsStart(TrimLeft(file.value));
      }
    }
  }

  /** What was saved is what a restart reads. */
  lemma {:induction false} SavedReadsBack(k: string)
    requires IsFingerprint(k)
    ensures Pinned(Some(k)) == Some(k)
  {
    assert "" + k + "" == k;
    PaddedReadsBack("", k, "");
  }

  /** The trust of one process that began with `file`: nothing saved yet and only the pinned key shown, or
      the key of a first use, saved before it was shown. */
  ghost predicate Trusts(m: Monitor, file: Option<string>) {
    && Pinned(file).Some?
    && (m.file == file ==>
          && m.pinned == Pinned(file).value && NeverSaves(m.seen)
          && OnlyKey(m.seen, m.pinned) && (m.pinned == "" ==> NoKey(m.seen) && m.client.None?))
    && (m.file != file ==>
          && file.None? && m.file.Some? && IsFingerprint(m.file.value)
          && (m.pinned == m.file.value || m.stopped)
          && OnlyKey(m.seen, m.file.value) && SavedFirst(m.seen))
  }

  lemma AddQuiet(seen: seq<Sight>, x: Sight, k: string)
    requires !ShowsKey(x)
    ensures OnlyKey(seen, k) ==> OnlyKey(seen + [x], k)
    ensures NoKey(seen) ==> NoKey(seen + [x])
    ensures NeverSaves(seen) ==> NeverSaves(seen + [x])
    ensures SavedFirst(seen) ==> SavedFirst(seen + [x])
  {
  }

  lemma WaitedTrusts(m: Monitor, file: Option<string>)
    requires Trusts(m, file)
    ensures Trusts(Waited(m), file)
  {
    if m.client.Some? {
      var k := if m.file == file then m.pinned else m.file.value;
      AddQuiet(m.seen, Cleared, k);
      AddQuiet(m.seen + [Cleared], Reported(Status(Reconnecting, 0, 0)), k);
    }
  }

  lemma FailedConnectTrusts(m: Monitor, file: Option<string>, state: TunnelState, jitter: nat)
    requires Trusts(m, file)
    ensures Trusts(FailedConnect(m, state, jitter), file)
  {
    var k := if m.file == file then m.pinned else m.file.value;
    AddQuiet(m.seen, Reported(FailedConnect(m, state, jitter).status), k);
  }

  /** A first use: the key is saved, then the client published, or the process is leaving. */
  lemma FirstUseTrusts(m: Monitor, file: Option<string>, key: string)
    requires Trusts(m, file) && m.pinned == "" && !m.stopped && IsFingerprint(key)
    ensures Trusts(SavedKey(m, key).(stopped := true), file)
    ensures Trusts(Publish(SavedKey(m, key), key), file)
  {
    var s1 := m.seen + [Saved(key)];
    var s2 := s1 + [Published(key)];
    assert m.file == file && NoKey(m.seen);
    assert forall i | 0 <= i < |m.seen| :: m.seen[i] in m.seen;
    assert SavedFirst(s1) && OnlyKey(s1, key);
    assert SavedFirst(s2) && OnlyKey(s2, key);
    AddQuiet(s2, Reported(Status(Up, 0, 0)), key);
  }

  /** Later connects publish the pinned key only. */
  lemma PublishTrusts(m: Monitor, file: Option<string>, key: string)
    requires Trusts(m, file) && m.pinned == key != "" && !m.stopped
    ensures Trusts(Publish(m, key), file)
  {
    var s := m.seen + [Published(key)];
    assert OnlyKey(s, key) && (NeverSaves(m.seen) ==> NeverSaves(s)) && (SavedFirst(m.seen) ==> SavedFirst(s));
    AddQuiet(s, Reported(Status(Up, 0, 0)), key);
  }

  lemma PassTrusts(m: Monitor, file: Option<string>, r: Round)
    requires Trusts(m, file) && IsRound(r)
    ensures Trusts(Pass(m, r), file)
  {
    if !m.stopped && !(m.client.Some? && r.stopWaiting) {
      var w := Waited(m);
      WaitedTrusts(m, file);
      if !r.stopSleeping {
        var c := Connect(w.pinned, r.net);
        if c.Refused? {
          FailedConnectTrusts(w, file, c.state, r.jitter);
        } else if w.pinned == "" {
          FirstUseTrusts(w, file, r.net.key);
        } else {
          PublishTrusts(w, file, r.net.key);
        }
      }
    }
  }

  lemma {:induction false} ProcessTrusts(file: Option<string>, rounds: seq<Round>)
    requires Start(file).Some? && AreRounds(rounds)
    ensures Trusts(Passes(Start(file).value, rounds), file)
  {
    if rounds != [] {
      assert rounds == rounds[..|rounds| - 1] + [rounds[|rounds| - 1]];
      ProcessTrusts(file, rounds[..|rounds| - 1]);
      PassTrusts(Passes(Start(file).value, rounds[..|rounds| - 1]), file, rounds[|rounds| - 1]);
    }
  }

  /** Processes one after the other over the same file; one that finds the file blank does not start. */
  datatype Life = Life(file: Option<string>, seen: seq<Sight>)

  function Lives(file: Option<string>, processes: seq<seq<Round>>): Life {
    if processes == [] then Life(file, [])
    else
      var before := Lives(file, processes[..|processes| - 1]);
      var m := Start(before.file);
      if m.None? then before
      else
        var end := Passes(m.value, processes[|processes| - 1]);
        Life(end.file, before.seen + end.seen)
  }

  lemma JoinSights(a: seq<Sight>, b: seq<Sight>, k: string)
    ensures OnlyKey(a, k) && OnlyKey(b, k) ==> OnlyKey(a + b, k)
    ensures NoKey(a) ==> (OnlyKey(b, k) ==> OnlyKey(a + b, k)) && (NoKey(b) ==> NoKey(a + b))
    ensures NeverSaves(a) && NeverSaves(b) ==> NeverSaves(a + b)
    ensures SavedFirst(a) && NeverSaves(b) ==> SavedFirst(a + b)
    ensures NoKey(a) && SavedFirst(b) ==> SavedFirst(a + b)
  {
  }

  /** Over any history of processes, restarts included, with nobody else touching the file: a file that is
      there at the beginning is never written and every client has its key; without one the first key
      saved stays in the file, every client ever published has that key, and none was published before
      it was saved. */
  lemma {:induction false} OneKeyForLife(file: Option<string>, processes: seq<seq<Round>>)
    requires forall rounds | rounds in processes :: AreRounds(rounds)
    ensures var life := Lives(file, processes);
            && (file.Some? ==> life.file == file && NeverSaves(life.seen) && OnlyKey(life.seen, Trim(file.value)))
            && (file.None? && life.file.None? ==> NoKey(life.seen))
            && (file.None? && life.file.Some? ==>
                  IsFingerprint(life.file.value) && OnlyKey(life.seen, life.file.value) && SavedFirst(life.seen))
  {
    if processes != [] {
      var rounds := processes[|processes| - 1];
      assert processes == processes[..|processes| - 1] + [rounds];
      assert rounds in processes;
      OneKeyForLife(file, processes[..|processes| - 1]);
      var before := Lives(file, processes[..|processes| - 1]);
      var m := Start(before.file);
      if before.file.Some? && IsFingerprint(before.file.value) {
        SavedReadsBack(before.file.value);
      }
      if m.Some? {
        ProcessTrusts(before.file, rounds);
        var end := Passes(m.value, rounds);
        JoinSights(before.seen, end.seen, end.pinned);
        if end.file.Some? {
          JoinSights(before.seen, end.seen, end.file.value);
        }
      }
    }
  }

  // ---------------------------------------------------------------- it does connect

  /** A round in which nobody stops the process. */
  predicate Unstopped(m: Monitor, r: Round) {
    !m.stopped && !(m.client.Some? && r.stopWaiting) && !r.stopSleeping && !r.stopDialing
  }

  /** Nothing fails on the way. */
  predicate Smooth(net: Network) {
    net.before.None? && net.after.None?
  }

  predicate IsConnected(m: Monitor, key: string) {
    && m.client == Some(key) && m.status == Status(Up, 0, 0) && m.pinned == key && m.attempt == 0 && m.delay == 0
    && 2 <= |m.seen| && m.seen[|m.seen| - 2] == Published(key) && !m.stopped
  }

  /** No client, the failure reported as one more, the delay of its number and the jitter, the key file as before. */
  predicate IsRefused(before: Monitor, m: Monitor, state: TunnelState, jitter: nat) {
    && m.client.None? && m.status.state == state && m.attempt == before.attempt + 1 == m.status.attempt
    && m.delay == m.status.retry == CappedDoubling(m.attempt) + jitter * MILLISECOND
    && m.pinned == before.pinned && m.file == before.file && !m.stopped
  }

  /** Every pass that nobody stops, by what the server and the network do: the pinned key is let in and any other is
      refused, the first key is let in if and only if it can be saved, and a failure is reported as what it is. */
  lemma PassConnects(m: Monitor, r: Round)
    requires Unstopped(m, r)
    ensures var (p, net) := (Pass(m, r), r.net);
            && (Smooth(net) && m.pinned != "" && net.key == m.pinned ==> IsConnected(p, m.pinned) && p.file == m.file)
            && (Smooth(net) && m.pinned == "" && net.saves ==> IsConnected(p, net.key) && p.file == Some(net.key))
            && (Smooth(net) && m.pinned == "" && !net.saves ==> IsRefused(m, p, SshError, r.jitter))
            && (net.before.None? && m.pinned != "" && net.key != m.pinned ==> IsRefused(m, p, HostKeyMismatch, r.jitter))
            && (net.before.Some? ==> IsRefused(m, p, net.before.value, r.jitter))
            && (net.before.None? && net.after.Some? && (m.pinned == "" || net.key == m.pinned) ==>
                  IsRefused(m, p, net.after.value, r.jitter))
  {
    DelayIsCappedDoubling(m.attempt + 1);
  }

  /** A stop ends the loop at its next check, and nothing is published from there on. */
  lemma StopPublishesNothing(m: Monitor, r: Round)
    ensures m.stopped ==> Pass(m, r) == m
    ensures !m.stopped && ((m.client.Some? && r.stopWaiting) || r.stopSleeping) ==> Pass(m, r).stopped && Pass(m, r).file == m.file
    ensures !m.stopped && !(m.client.Some? && r.stopWaiting) && r.stopSleeping ==>
              Pass(m, r).client.None? && (m.client.Some? ==> Pass(m, r).status == Status(Reconnecting, 0, 0))
    ensures !m.stopped && m.client.Some? && r.stopWaiting ==> Pass(m, r) == m.(stopped := true)
    ensures !m.stopped && r.stopDialing ==> Pass(m, r).stopped || Pass(m, r).client.None?
    ensures m.seen <= Pass(m, r).seen
    ensures Pass(m, r).stopped ==> forall i | |m.seen| <= i < |Pass(m, r).seen| :: !Pass(m, r).seen[i].Published?
  {
  }

  /** Once a key is in the file it stays there, whatever later processes do. */
  lemma {:induction false} FileStays(file: Option<string>, processes: seq<seq<Round>>, later: seq<seq<Round>>)
    requires forall rounds | rounds in processes + later :: AreRounds(rounds)
    requires Lives(file, processes).file.Some?
    ensures Lives(file, processes + later).file == Lives(file, processes).file
  {
    if later == [] {
      assert processes + later == processes;
    } else {
      var all, rounds := processes + later, later[|later| - 1];
      assert all[..|all| - 1] == processes + later[..|later| - 1] && all[|all| - 1] == rounds && rounds in all;
      assert forall x | x in processes + later[..|later| - 1] :: x in all;
      FileStays(file, processes, later[..|later| - 1]);
      var before := Lives(file, all[..|all| - 1]);
      if Start(before.file).Some? {
        ProcessTrusts(before.file, rounds);
      }
    }
  }

  /** For the life of the key file, over any number of restarts: once it pins a key, every unstopped pass of every later
      process in which the server shows that key and nothing fails connects, and every one in which it shows
      another key is refused. */
  lemma ConnectsForLife(file: Option<string>, processes: seq<seq<Round>>, later: seq<seq<Round>>, rounds: seq<Round>, r: Round)
    requires (forall rs | rs in processes + later :: AreRounds(rs)) && AreRounds(rounds)
    requires Lives(file, processes).file.Some? && Pinned(Lives(file, processes).file).Some?
    ensures var (start, key) := (Start(Lives(file, processes + later).file), Pinned(Lives(file, processes).file).value);
            && start.Some?
            && var m := Passes(start.value, rounds);
               Unstopped(m, r) ==>
                 && (Smooth(r.net) && r.net.key == key ==> IsConnected(Pass(m, r), key))
                 && (r.net.before.None? && r.net.key != key ==> IsRefused(m, Pass(m, r), HostKeyMismatch, r.jitter))
  {
    FileStays(file, processes, later);
    var now := Lives(file, processes + later).file;
    BlankIff(now);
    ProcessTrusts(now, rounds);
    var m := Passes(Start(now).value, rounds);
    if Unstopped(m, r) {
      PassConnects(m, r);
    }
  }
}
