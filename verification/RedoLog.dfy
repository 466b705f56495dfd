/** The on-disk protocol of kernel/log.c as ordered block writes, with a crash possible
    between any two of them, also during recovery. `start` is the header block; log block
    t of a transaction is at start + 1 + t. */
module RedoLog {
  import opened Bcache

  const LOGBLOCKS: nat := 30

  ghost predicate InLog(start: nat, b: nat) { start <= b <= start + LOGBLOCKS }

  /** The whole log area lies on the disk. */
  ghost predicate Fits(d: Disk, start: nat) { start + LOGBLOCKS < |d| }

  ghost predicate Home(d: Disk, start: nat, b: nat) { b < |d| && !InLog(start, b) }

  /** write_head's block: n, then n block numbers; the rest of the buffer keeps its words. */
  function Header(hb: Block, lh: seq<nat>): Block
    requires |lh| <= LOGBLOCKS
  {
    [|lh|] + lh + hb[1 + |lh|..]
  }

  /** read_head: the block numbers of the committed transaction on disk. */
  function Logged(h: Block): seq<nat>
    requires h[0] <= LOGBLOCKS
  {
    h[1..1 + h[0]]
  }

  lemma HeaderRoundTrip(hb: Block, lh: seq<nat>)
    requires |lh| <= LOGBLOCKS
    ensures Header(hb, lh)[0] == |lh| && Logged(Header(hb, lh)) == lh
  {
  }

  lemma HeaderTwice(hb: Block)
    ensures Header(Header(hb, []), []) == Header(hb, [])
  {
  }

  function Apply(d: Disk, ws: seq<Write>): (r: Disk)
    ensures |r| == |d|
    decreases |ws|
  {
    if ws == [] then d else
    var r := Apply(d, ws[..|ws|-1]);
    var w := ws[|ws|-1];
    if w.blockno < |r| then r[w.blockno := w.data] else r
  }

  lemma {:induction false} ApplyConcat(d: Disk, a: seq<Write>, b: seq<Write>)
    ensures Apply(d, a + b) == Apply(Apply(d, a), b)
    decreases |b|
  {
    if b == [] {
      assert a + b == a;
    } else {
      assert (a + b)[..|a + b|-1] == a + b[..|b|-1];
      ApplyConcat(d, a, b[..|b|-1]);
    }
  }

  lemma ApplyPrefix(d: Disk, before: seq<Write>, ws: seq<Write>, k: nat)
    requires k < |ws| && ws[k].blockno < |d|
    ensures before + ws[..k+1] == before + ws[..k] + [ws[k]]
    ensures Apply(d, ws[..k+1]) == Apply(d, ws[..k])[ws[k].blockno := ws[k].data]
  {
    assert ws[..k+1][..k] == ws[..k];
  }

  ghost predicate Touches(ws: seq<Write>, b: nat) { exists w <- ws :: w.blockno == b }

  lemma {:induction false} ApplyUntouched(d: Disk, ws: seq<Write>, b: nat)
    requires b < |d| && !Touches(ws, b)
    ensures Apply(d, ws)[b] == d[b]
    decreases |ws|
  {
    if ws == [] {
    } else {
      assert ws[|ws|-1] in ws;
      forall w <- ws[..|ws|-1] ensures w.blockno != b { assert w in ws; }
      ApplyUntouched(d, ws[..|ws|-1], b);
    }
  }

  /** Where a block is written, its final content does not depend on the disk written to. */
  lemma {:induction false} ApplyTouched(d: Disk, e: Disk, ws: seq<Write>, b: nat)
    requires |d| == |e| && b < |d| && Touches(ws, b)
    ensures Apply(d, ws)[b] == Apply(e, ws)[b]
    decreases |ws|
  {
    var init, w := ws[..|ws|-1], ws[|ws|-1];
    if w.blockno != b {
      assert Touches(init, b) by {
        var x :| x in ws && x.blockno == b;
        assert x in init;
      }
      ApplyTouched(d, e, init, b);
    }
  }

  // ---------- The three phases as write sequences ----------

  function LogWrites(start: nat, vals: seq<Block>): seq<Write> {
    seq(|vals|, t requires 0 <= t < |vals| => Write(start + 1 + t, vals[t]))
  }

  function InstallWrites(lh: seq<nat>, vals: seq<Block>): seq<Write>
    requires |lh| == |vals|
  {
    seq(|lh|, t requires 0 <= t < |lh| => Write(lh[t], vals[t]))
  }

  /** commit(): log blocks, header, home blocks, empty header; nothing for an empty transaction. */
  function CommitWrites(h: Block, start: nat, lh: seq<nat>, vals: seq<Block>): seq<Write>
    requires |lh| == |vals| <= LOGBLOCKS
  {
    if lh == [] then [] else
    LogWrites(start, vals) + [Write(start, Header(h, lh))]
    + InstallWrites(lh, vals) + [Write(start, Header(Header(h, lh), []))]
  }

  /** A disk recovery can start from: the header names home blocks only. */
  ghost predicate Recoverable(d: Disk, start: nat) {
    && Fits(d, start) && d[start][0] <= LOGBLOCKS
    && forall b <- Logged(d[start]) :: Home(d, start, b)
  }

  function LogContents(d: Disk, start: nat): seq<Block>
    requires Recoverable(d, start)
  {
    d[start + 1..start + 1 + d[start][0]]
  }

  /** recover_from_log(): install what the header names, then clear the header. */
  function RecoveryWrites(d: Disk, start: nat): seq<Write>
    requires Recoverable(d, start)
  {
    InstallWrites(Logged(d[start]), LogContents(d, start)) + [Write(start, Header(d[start], []))]
  }

  function Recovered(d: Disk, start: nat): Disk
    requires Recoverable(d, start)
  {
    Apply(d, RecoveryWrites(d, start))
  }

  // ---------- Crashes during recovery ----------

  lemma InstallTouchesHome(d: Disk, start: nat, k: nat)
    requires Recoverable(d, start) && k <= d[start][0]
    ensures forall w <- InstallWrites(Logged(d[start]), LogContents(d, start))[..k] :: Home(d, start, w.blockno)
    ensures forall b: nat | InLog(start, b) ::
              !Touches(InstallWrites(Logged(d[start]), LogContents(d, start))[..k], b)
  {
  }

  /** Part of an installation leaves the log area, and so what recovery will do, as it was. */
  lemma PartialInstall(d: Disk, start: nat, k: nat)
    requires Recoverable(d, start) && k <= d[start][0]
    ensures var e := Apply(d, RecoveryWrites(d, start)[..k]);
            Recoverable(e, start) && RecoveryWrites(e, start) == RecoveryWrites(d, start)
  {
    var ws := InstallWrites(Logged(d[start]), LogContents(d, start));
    assert RecoveryWrites(d, start)[..k] == ws[..k];
    var e := Apply(d, ws[..k]);
    InstallTouchesHome(d, start, k);
    forall b: nat | InLog(start, b) ensures e[b] == d[b] { ApplyUntouched(d, ws[..k], b); }
    SameLog(d, e, start);
  }

  lemma SameLog(d: Disk, e: Disk, start: nat)
    requires Recoverable(d, start) && |e| == |d| && forall b: nat | InLog(start, b) :: e[b] == d[b]
    ensures Recoverable(e, start) && RecoveryWrites(e, start) == RecoveryWrites(d, start)
  {
    assert e[start] == d[start];
    assert LogContents(e, start) == LogContents(d, start);
  }

  lemma {:induction false} Redo(d: Disk, ws: seq<Write>, k: nat)
    requires k <= |ws|
    ensures Apply(Apply(d, ws[..k]), ws) == Apply(d, ws)
  {
    var e := Apply(d, ws[..k]);
    forall b | 0 <= b < |d| ensures Apply(e, ws)[b] == Apply(d, ws)[b] {
      if Touches(ws, b) {
        ApplyTouched(d, e, ws, b);
      } else {
        forall w <- ws[..k] ensures w.blockno != b { assert w in ws; }
        ApplyUntouched(d, ws[..k], b);
        ApplyUntouched(d, ws, b);
        ApplyUntouched(e, ws, b);
      }
    }
  }

  /** Recovery is idempotent: a recovered disk recovers to itself. */
  lemma RecoverAgain(d: Disk, start: nat)
    requires Recoverable(d, start)
    ensures Recovered(d, start)[start] == Header(d[start], [])
    ensures Recoverable(Recovered(d, start), start)
    ensures Recovered(Recovered(d, start), start) == Recovered(d, start)
  {
    var ws, e := RecoveryWrites(d, start), Recovered(d, start);
    assert ws[|ws|-1] == Write(start, Header(d[start], []));
    HeaderTwice(d[start]);
    HeaderRoundTrip(d[start], []);
    assert Logged(e[start]) == [];
    assert RecoveryWrites(e, start) == [Write(start, e[start])];
    assert Apply(e, [Write(start, e[start])]) == Apply(e, [])[start := e[start]];
  }

  /** Recovery cut short after any k of its writes, then run again, ends where it would have. */
  lemma RecoveryCutShort(d: Disk, start: nat, k: nat)
    requires Recoverable(d, start) && k <= |RecoveryWrites(d, start)|
    ensures var e := Apply(d, RecoveryWrites(d, start)[..k]);
            Recoverable(e, start) && Recovered(e, start) == Recovered(d, start)
  {
    var ws := RecoveryWrites(d, start);
    if k == |ws| {
      assert ws[..k] == ws;
      RecoverAgain(d, start);
    } else {
      PartialInstall(d, start, k);
      Redo(d, ws, k);
    }
  }

  /** The disk after recovery was attempted and crashed once per entry of `cuts`. */
  function AfterCrashes(d: Disk, start: nat, cuts: seq<nat>): (r: Disk)
    requires Recoverable(d, start)
    ensures Recoverable(r, start) && Recovered(r, start) == Recovered(d, start)
    decreases |cuts|
  {
    if cuts == [] then d else
    var ws := RecoveryWrites(d, start);
    var k := if cuts[0] <= |ws| then cuts[0] else |ws|;
    RecoveryCutShort(d, start, k);
    AfterCrashes(Apply(d, ws[..k]), start, cuts[1..])
  }

  // ---------- Crashes during commit ----------

  /** A transaction: distinct home blocks and their new contents. */
  ghost predicate Transaction(d: Disk, start: nat, lh: seq<nat>, vals: seq<Block>) {
    && |lh| == |vals| <= LOGBLOCKS
    && (forall t | 0 <= t < |lh| :: Home(d, start, lh[t]))
    && forall t, u | 0 <= t < u < |lh| :: lh[t] != lh[u]
  }

  /** No committed transaction is waiting on disk. */
  ghost predicate LogEmpty(d: Disk, start: nat) { Fits(d, start) && d[start][0] == 0 }

  ghost predicate SameHome(d: Disk, e: Disk, start: nat) {
    |d| == |e| && forall b | 0 <= b < |d| && !InLog(start, b) :: d[b] == e[b]
  }

  lemma EmptyRecovers(d: Disk, start: nat)
    requires LogEmpty(d, start)
    ensures Recoverable(d, start) && SameHome(Recovered(d, start), d, start)
  {
    var ws := RecoveryWrites(d, start);
    assert ws == [Write(start, Header(d[start], []))];
    forall b | 0 <= b < |d| && !InLog(start, b) ensures Recovered(d, start)[b] == d[b] {
      ApplyUntouched(d, ws, b);
    }
  }

  /** Before the header write only log blocks change. */
  lemma BeforeHeader(d: Disk, start: nat, lh: seq<nat>, vals: seq<Block>, k: nat)
    requires LogEmpty(d, start) && Transaction(d, start, lh, vals) && k <= |lh|
    ensures var e := Apply(d, LogWrites(start, vals)[..k]);
            LogEmpty(e, start) && SameHome(e, d, start) && e[start] == d[start]
            && forall t | 0 <= t < k :: e[start + 1 + t] == vals[t]
    decreases k
  {
    var ws := LogWrites(start, vals);
    if k == 0 {
      assert ws[..k] == [];
    } else {
      BeforeHeader(d, start, lh, vals, k - 1);
      assert ws[..k][..k-1] == ws[..k-1];
      assert ws[..k][k-1] == Write(start + k, vals[k-1]);
    }
  }

  /** The disk on which the commit point has just been reached. */
  function HeaderWritten(d: Disk, start: nat, lh: seq<nat>, vals: seq<Block>): Disk
    requires |lh| == |vals| <= LOGBLOCKS && Fits(d, start)
  {
    Apply(d, LogWrites(start, vals))[start := Header(d[start], lh)]
  }

  lemma HeaderWrittenIs(d: Disk, start: nat, lh: seq<nat>, vals: seq<Block>)
    requires LogEmpty(d, start) && Transaction(d, start, lh, vals)
    ensures var e := HeaderWritten(d, start, lh, vals);
            && Apply(d, LogWrites(start, vals) + [Write(start, Header(d[start], lh))]) == e
            && Recoverable(e, start) && SameHome(e, d, start)
            && Logged(e[start]) == lh && LogContents(e, start) == vals
  {
    var ws, w := LogWrites(start, vals), Write(start, Header(d[start], lh));
    var e := HeaderWritten(d, start, lh, vals);
    BeforeHeader(d, start, lh, vals, |lh|);
    assert ws[..|lh|] == ws;
    assert (ws + [w])[..|ws|] == ws;
    HeaderRoundTrip(d[start], lh);
    ContentsAre(e, start, lh, vals);
  }

  lemma ContentsAre(e: Disk, start: nat, lh: seq<nat>, vals: seq<Block>)
    requires Recoverable(e, start) && |vals| == |lh| <= LOGBLOCKS && e[start][0] == |lh|
    requires forall t | 0 <= t < |lh| :: e[start + 1 + t] == vals[t]
    ensures LogContents(e, start) == vals
  {
  }

  /** From the header on, commit() makes exactly the writes recovery would make. */
  lemma CommitIsLogThenRecover(d: Disk, start: nat, lh: seq<nat>, vals: seq<Block>)
    requires LogEmpty(d, start) && Transaction(d, start, lh, vals) && lh != []
    ensures var e := HeaderWritten(d, start, lh, vals);
            && Recoverable(e, start)
            && CommitWrites(d[start], start, lh, vals)
               == LogWrites(start, vals) + [Write(start, Header(d[start], lh))] + RecoveryWrites(e, start)
  {
    HeaderWrittenIs(d, start, lh, vals);
    var e := HeaderWritten(d, start, lh, vals);
    assert RecoveryWrites(e, start) == InstallWrites(lh, vals) + [Write(start, Header(Header(d[start], lh), []))];
  }

  /** The disk with the transaction's blocks in their home locations. */
  function Committed(d: Disk, lh: seq<nat>, vals: seq<Block>): Disk
    requires |lh| == |vals|
  {
    Apply(d, InstallWrites(lh, vals))
  }

  /** Committed replaces exactly the transaction's blocks. */
  lemma CommittedIs(d: Disk, start: nat, lh: seq<nat>, vals: seq<Block>, b: nat)
    requires Transaction(d, start, lh, vals) && b < |d|
    ensures b !in lh ==> Committed(d, lh, vals)[b] == d[b]
    ensures forall t | 0 <= t < |lh| && lh[t] == b :: Committed(d, lh, vals)[b] == vals[t]
    decreases |lh|
  {
    if lh == [] {
    } else {
      var n := |lh| - 1;
      assert InstallWrites(lh, vals)[..n] == InstallWrites(lh[..n], vals[..n]);
      CommittedIs(d, start, lh[..n], vals[..n], b);
    }
  }

  lemma RecoverCommitted(d: Disk, start: nat, lh: seq<nat>, vals: seq<Block>)
    requires LogEmpty(d, start) && Transaction(d, start, lh, vals)
    ensures var e := HeaderWritten(d, start, lh, vals);
            Recoverable(e, start) && SameHome(Recovered(e, start), Committed(d, lh, vals), start)
  {
    HeaderWrittenIs(d, start, lh, vals);
    var e, ws := HeaderWritten(d, start, lh, vals), InstallWrites(lh, vals);
    var w := Write(start, Header(e[start], []));
    assert RecoveryWrites(e, start) == ws + [w];
    assert (ws + [w])[..|ws|] == ws;
    forall b | 0 <= b < |d| && !InLog(start, b)
      ensures Recovered(e, start)[b] == Committed(d, lh, vals)[b]
    {
      assert Recovered(e, start)[b] == Apply(e, ws)[b];
      if Touches(ws, b) { ApplyTouched(d, e, ws, b); } else { ApplyUntouched(d, ws, b); ApplyUntouched(e, ws, b); }
    }
  }

  lemma CrashBeforeHeader(d: Disk, start: nat, lh: seq<nat>, vals: seq<Block>, k: nat)
    requires LogEmpty(d, start) && Transaction(d, start, lh, vals) && k <= |lh|
    ensures var e := Apply(d, CommitWrites(d[start], start, lh, vals)[..k]);
            LogEmpty(e, start) && Recoverable(e, start) && SameHome(Recovered(e, start), d, start)
  {
    var ws := CommitWrites(d[start], start, lh, vals);
    assert ws[..k] == LogWrites(start, vals)[..k];
    BeforeHeader(d, start, lh, vals, k);
    EmptyRecovers(Apply(d, ws[..k]), start);
  }

  lemma PrefixPast<T>(s: seq<T>, a: seq<T>, b: seq<T>, k: nat)
    requires s == a + b && |a| <= k <= |s|
    ensures s[..k] == a + b[..k - |a|]
  {
  }

  lemma CommitPrefix(d: Disk, h: Disk, ws: seq<Write>, a: seq<Write>, rest: seq<Write>, k: nat)
    requires ws == a + rest && Apply(d, a) == h && |a| <= k <= |ws|
    ensures Apply(d, ws[..k]) == Apply(h, rest[..k - |a|])
  {
    PrefixPast(ws, a, rest, k);
    ApplyConcat(d, a, rest[..k - |a|]);
  }

  lemma CommitSplit(d: Disk, start: nat, lh: seq<nat>, vals: seq<Block>, ws: seq<Write>)
    returns (h: Disk, a: seq<Write>, rest: seq<Write>)
    requires LogEmpty(d, start) && Transaction(d, start, lh, vals) && lh != []
    requires ws == CommitWrites(d[start], start, lh, vals)
    ensures Recoverable(h, start) && rest == RecoveryWrites(h, start) && |a| == |lh| + 1
    ensures ws == a + rest && Apply(d, a) == h && SameHome(Recovered(h, start), Committed(d, lh, vals), start)
  {
    CommitIsLogThenRecover(d, start, lh, vals);
    HeaderWrittenIs(d, start, lh, vals);
    RecoverCommitted(d, start, lh, vals);
    h, a := HeaderWritten(d, start, lh, vals), LogWrites(start, vals) + [Write(start, Header(d[start], lh))];
    rest := RecoveryWrites(h, start);
  }

  lemma CrashAfterHeader(d: Disk, start: nat, lh: seq<nat>, vals: seq<Block>, k: nat)
    requires LogEmpty(d, start) && Transaction(d, start, lh, vals)
    requires |lh| < k <= |CommitWrites(d[start], start, lh, vals)|
    ensures var e := Apply(d, CommitWrites(d[start], start, lh, vals)[..k]);
            Recoverable(e, start) && SameHome(Recovered(e, start), Committed(d, lh, vals), start)
  {
    var ws := CommitWrites(d[start], start, lh, vals);
    var h, a, rest := CommitSplit(d, start, lh, vals, ws);
    CommitPrefix(d, h, ws, a, rest, k);
    RecoveryCutShort(h, start, k - |a|);
  }

  /** Crash after any k of commit's writes, then any number of crashes during recovery: the
      home blocks end up as before the transaction or as after it, the latter exactly when
      the header write happened, and recovering once more changes nothing. */
  lemma CrashAtomicity(d: Disk, start: nat, lh: seq<nat>, vals: seq<Block>, k: nat, cuts: seq<nat>)
    requires LogEmpty(d, start) && Transaction(d, start, lh, vals)
    requires k <= |CommitWrites(d[start], start, lh, vals)|
    ensures var e := Apply(d, CommitWrites(d[start], start, lh, vals)[..k]);
            && Recoverable(e, start)
            && var f := Recovered(AfterCrashes(e, start, cuts), start);
            && SameHome(f, if k > |lh| then Committed(d, lh, vals) else d, start)
            && LogEmpty(f, start) && Recoverable(f, start) && Recovered(f, start) == f
  {
    var e := Apply(d, CommitWrites(d[start], start, lh, vals)[..k]);
    if k > |lh| { CrashAfterHeader(d, start, lh, vals, k); } else { CrashBeforeHeader(d, start, lh, vals, k); }
    RecoverAgain(AfterCrashes(e, start, cuts), start);
    HeaderRoundTrip(AfterCrashes(e, start, cuts)[start], []);
  }

  /** A finished commit leaves the committed home blocks and an empty log. */
  lemma CommitFinished(from: Disk, start: nat, lh: seq<nat>, vals: seq<Block>)
    requires LogEmpty(from, start) && Transaction(from, start, lh, vals)
    ensures var d := Apply(from, CommitWrites(from[start], start, lh, vals));
            LogEmpty(d, start) && SameHome(d, Committed(from, lh, vals), start)
  {
    if lh == [] {
      assert Committed(from, lh, vals) == from;
    } else {
      var ws, h := CommitWrites(from[start], start, lh, vals), HeaderWritten(from, start, lh, vals);
      CommitIsLogThenRecover(from, start, lh, vals);
      HeaderWrittenIs(from, start, lh, vals);
      ApplyConcat(from, LogWrites(start, vals) + [Write(start, Header(from[start], lh))], RecoveryWrites(h, start));
      RecoverCommitted(from, start, lh, vals);
      RecoverAgain(h, start);
      HeaderRoundTrip(h[start], []);
    }
  }
}
