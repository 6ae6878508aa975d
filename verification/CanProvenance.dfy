/** Where delivered bytes come from, for every sequence of frames whatsoever (comm/comm_can.c:1622-1747):
    a payload is a gap-free chain of fragments that really arrived, no fragment is delivered twice. */
module CanProvenance {
  import opened Bytes
  import opened CanFrames
  import opened CanReassembly
  import opened CanStabilization
  import opened CanInterleaving

  // `data` is the concatenation of the fragments of fs[c[0]], fs[c[1]], ..., arrived in this order
  // before frame n, each one announced at the offset where the one before it ended.
  ghost predicate Chain(fs: seq<Frame>, n: int, c: seq<int>, data: seq<byte>)
    requires n <= |fs|
    decreases |c|
  {
    if c == [] then data == []
    else
      var k := c[|c| - 1];
      && 0 <= k < n && IsFill(fs[k])
      && |data| == Offset(fs[k]) + |Fragment(fs[k])|
      && data[Offset(fs[k])..] == Fragment(fs[k])
      && Chain(fs, k, c[..|c| - 1], data[..Offset(fs[k])])
  }

  lemma ChainLater(fs: seq<Frame>, n: int, m: int, c: seq<int>, data: seq<byte>)
    requires n <= m <= |fs| && Chain(fs, n, c, data)
    ensures Chain(fs, m, c, data)
  {
  }

  lemma ChainExtends(fs: seq<Frame>, n: int, c: seq<int>, data: seq<byte>)
    requires 0 <= n < |fs| && Chain(fs, n, c, data) && IsFill(fs[n]) && |data| == Offset(fs[n])
    ensures Chain(fs, n + 1, c + [n], data + Fragment(fs[n]))
  {
    hide Offset, Fragment;
    assert (c + [n])[..|c|] == c;
    assert (data + Fragment(fs[n]))[..|data|] == data;
    assert (data + Fragment(fs[n]))[|data|..] == Fragment(fs[n]);
  }

  // The receiver after the first n frames.
  ghost function After(p: Params, r: Rx, fs: seq<Frame>, n: nat): (r': Rx)
    requires p.Valid() && InRange(p, r) && n <= |fs|
    ensures InRange(p, r')
  {
    if n == 0 then r else Step(p, After(p, r, fs, n - 1), fs[n - 1]).0
  }

  lemma {:induction false} AfterIsRun(p: Params, r: Rx, fs: seq<Frame>, n: nat)
    requires p.Valid() && InRange(p, r) && n <= |fs|
    ensures Run(p, r, fs[..n]).0 == After(p, r, fs, n)
  {
    if n > 0 {
      AfterIsRun(p, r, fs, n - 1);
      RunConcat(p, r, fs[..n - 1], [fs[n - 1]]);
      assert fs[..n] == fs[..n - 1] + [fs[n - 1]];
      var r1 := After(p, r, fs, n - 1);
      RunCons(p, r1, fs[n - 1], []);
      assert [fs[n - 1]] + [] == [fs[n - 1]];
    }
  }

  // Bookkeeping: which frames the present contents of each buffer came from.
  ghost function LogStep(p: Params, r: Rx, logs: seq<seq<int>>, f: Frame, n: int): (logs': seq<seq<int>>)
    requires p.Valid() && InRange(p, r) && |logs| == p.num
    ensures |logs'| == p.num
  {
    if IsFill(f) then
      var b := Target(r.offs, Offset(f));
      if b < 0 || p.size < Offset(f) + |Fragment(f)| then logs
      else if Offset(f) == 0 then logs[b := [n]]
      else logs[b := logs[b] + [n]]
    else if f.cmd.ProcessRxBuffer? && Join(f.data8[2], f.data8[3]) <= p.size then
      var b := FirstAt(r.offs, Join(f.data8[2], f.data8[3]));
      if b < 0 then seq(p.num, _ => []) else logs[b := []]
    else logs
  }

  ghost function Logs(p: Params, r: Rx, fs: seq<Frame>, n: nat): (logs: seq<seq<int>>)
    requires p.Valid() && InRange(p, r) && n <= |fs|
    ensures |logs| == p.num
  {
    if n == 0 then seq(p.num, _ => [])
    else LogStep(p, After(p, r, fs, n - 1), Logs(p, r, fs, n - 1), fs[n - 1], n - 1)
  }

  ghost predicate Sourced(p: Params, r: Rx, fs: seq<Frame>, n: int, logs: seq<seq<int>>, b: int)
    requires InRange(p, r) && n <= |fs| && |logs| == p.num && 0 <= b < p.num
  {
    Chain(fs, n, logs[b], r.bufs[b][..r.offs[b]])
  }

  lemma FillKeepsSourced(p: Params, r: Rx, fs: seq<Frame>, n: nat, logs: seq<seq<int>>, b: int)
    requires p.Valid() && InRange(p, r) && n < |fs| && |logs| == p.num && 0 <= b < p.num
    requires Sourced(p, r, fs, n, logs, b) && IsFill(fs[n])
    ensures Sourced(p, Fill(p, r, Offset(fs[n]), Fragment(fs[n])), fs, n + 1, LogStep(p, r, logs, fs[n], n), b)
  {
    var k, d := Offset(fs[n]), Fragment(fs[n]);
    var r1, logs1 := Fill(p, r, k, d), LogStep(p, r, logs, fs[n], n);
    ChainLater(fs, n, n + 1, logs[b], r.bufs[b][..r.offs[b]]);
    if Target(r.offs, k) == b && k + |d| <= p.size {
      hide Offset, Fragment;
      var c, data := if k == 0 then [] else logs[b], r.bufs[b][..k];
      ChainExtends(fs, n, c, data);
      assert logs1[b] == c + [n];
      assert r1.bufs[b][..r1.offs[b]] == data + d;
    }
  }

  lemma {:induction false} StepKeepsSourced(p: Params, r: Rx, fs: seq<Frame>, n: nat, logs: seq<seq<int>>, b: int)
    requires p.Valid() && InRange(p, r) && n < |fs| && |logs| == p.num && 0 <= b < p.num
    requires Sourced(p, r, fs, n, logs, b)
    ensures Sourced(p, Step(p, r, fs[n]).0, fs, n + 1, LogStep(p, r, logs, fs[n], n), b)
  {
    if IsFill(fs[n]) {
      hide Sourced, Fill, LogStep, InRange, Offset, Fragment;
      FillKeepsSourced(p, r, fs, n, logs, b);
    } else {
      var r1 := Step(p, r, fs[n]).0;
      BuffersKeptOrFreed(p, r, fs[n], b, logs, n);
      hide Step, LogStep, InRange;
      ChainLater(fs, n, n + 1, logs[b], r.bufs[b][..r.offs[b]]);
      assert Chain(fs, n + 1, [], r1.bufs[b][..0]);
    }
  }

  lemma BuffersKeptOrFreed(p: Params, r: Rx, f: Frame, b: int, logs: seq<seq<int>>, n: nat)
    requires p.Valid() && InRange(p, r) && |logs| == p.num && 0 <= b < p.num && !IsFill(f)
    ensures var r1, log := Step(p, r, f).0, LogStep(p, r, logs, f, n)[b];
            && r1.bufs[b] == r.bufs[b]
            && ((r1.offs[b] == r.offs[b] && log == logs[b]) || (r1.offs[b] == 0 && log == []))
  {
  }

  // In every run from the idle state, each buffer's prefix is such a chain.
  lemma {:induction false} PrefixesAreChains(p: Params, r: Rx, fs: seq<Frame>, n: nat)
    requires p.Valid() && InRange(p, r) && AllIdle(p, r) && n <= |fs|
    ensures forall b :: 0 <= b < p.num ==> Sourced(p, After(p, r, fs, n), fs, n, Logs(p, r, fs, n), b)
  {
    if n > 0 {
      hide Step, LogStep, Sourced, AllIdle;
      PrefixesAreChains(p, r, fs, n - 1);
      var r1, logs1 := After(p, r, fs, n - 1), Logs(p, r, fs, n - 1);
      var r2, logs2 := Step(p, r1, fs[n - 1]).0, LogStep(p, r1, logs1, fs[n - 1], n - 1);
      forall b | 0 <= b < p.num
        ensures Sourced(p, r2, fs, n, logs2, b)
      {
        StepKeepsSourced(p, r1, fs, n - 1, logs1, b);
      }
    }
  }

  // The frame that ends a transmission, and the buffer it empties.
  ghost predicate Delivers(p: Params, r: Rx, fs: seq<Frame>, n: nat)
    requires p.Valid() && InRange(p, r) && n < |fs|
  {
    fs[n].cmd.ProcessRxBuffer? && Step(p, After(p, r, fs, n), fs[n]).1 != []
  }

  ghost function Emptied(p: Params, r: Rx, fs: seq<Frame>, n: nat): (b: int)
    requires p.Valid() && InRange(p, r) && n < |fs| && Delivers(p, r, fs, n)
    ensures 0 <= b < p.num
  {
    FirstAt(After(p, r, fs, n).offs, Join(fs[n].data8[2], fs[n].data8[3]))
  }

  // Whatever a ProcessRxBuffer frame delivers is a chain with exactly the announced length and CRC.
  lemma {:induction false} DeliveredIsChain(p: Params, r: Rx, fs: seq<Frame>, n: nat)
    requires p.Valid() && InRange(p, r) && AllIdle(p, r) && n < |fs| && Delivers(p, r, fs, n)
    ensures var d8 := fs[n].data8;
            var out := Step(p, After(p, r, fs, n), fs[n]).1;
            && |out| == 1 && KindOf(d8[1]) == Some(out[0].kind)
            && |out[0].payload| == Join(d8[2], d8[3])
            && p.crc(out[0].payload) == Join(d8[4], d8[5])
            && Chain(fs, n, Logs(p, r, fs, n)[Emptied(p, r, fs, n)], out[0].payload)
  {
    PrefixesAreChains(p, r, fs, n);
    assert Sourced(p, After(p, r, fs, n), fs, n, Logs(p, r, fs, n), Emptied(p, r, fs, n));
  }

  ghost predicate Held(logs: seq<seq<int>>, i: int) { exists b :: 0 <= b < |logs| && i in logs[b] }

  // A fragment is in at most one buffer, and none is there before it arrived.
  ghost predicate Disjoint(logs: seq<seq<int>>, n: int) {
    && (forall b, i :: 0 <= b < |logs| && i in logs[b] ==> 0 <= i < n)
    && (forall b, c, i :: 0 <= b < c < |logs| && i in logs[b] ==> i !in logs[c])
  }

  lemma {:induction false} LogsAreDisjoint(p: Params, r: Rx, fs: seq<Frame>, n: nat)
    requires p.Valid() && InRange(p, r) && n <= |fs|
    ensures Disjoint(Logs(p, r, fs, n), n)
  {
    hide Step, After, Target, FirstAt, Offset, Fragment, InRange;
    if n > 0 {
      LogsAreDisjoint(p, r, fs, n - 1);
    }
  }

  // A fragment that no buffer holds any more never comes back.
  lemma {:induction false} GoneForGood(p: Params, r: Rx, fs: seq<Frame>, n: nat, m: nat, i: int)
    requires p.Valid() && InRange(p, r) && n <= m <= |fs| && 0 <= i < n
    requires !Held(Logs(p, r, fs, n), i)
    ensures !Held(Logs(p, r, fs, m), i)
    decreases m - n
  {
    hide Step, After, Target, FirstAt, Offset, Fragment, InRange;
    if n < m {
      GoneForGood(p, r, fs, n, m - 1, i);
    }
  }

  lemma DeliveryForgets(p: Params, r: Rx, fs: seq<Frame>, n: nat)
    requires p.Valid() && InRange(p, r) && n < |fs| && Delivers(p, r, fs, n)
    ensures Logs(p, r, fs, n + 1) == Logs(p, r, fs, n)[Emptied(p, r, fs, n) := []]
  {
    hide Deliver, AllIdle;
  }

  lemma NotHeld(logs: seq<seq<int>>, b: int, i: int)
    requires 0 <= b < |logs|
    ensures !Held(logs, i) ==> i !in logs[b]
  {
  }

  lemma RemovedIsGone(logs: seq<seq<int>>, n: int, b: int, i: int)
    requires Disjoint(logs, n) && 0 <= b < |logs| && i in logs[b]
    ensures 0 <= i < n && !Held(logs[b := []], i)
  {
  }

  // No fragment is delivered twice: the chains of two deliveries have no frame in common.
  lemma {:induction false} DeliveredOnce(p: Params, r: Rx, fs: seq<Frame>, n: nat, m: nat, i: int)
    requires p.Valid() && InRange(p, r) && n < m < |fs|
    requires Delivers(p, r, fs, n) && Delivers(p, r, fs, m)
    requires i in Logs(p, r, fs, n)[Emptied(p, r, fs, n)]
    ensures i !in Logs(p, r, fs, m)[Emptied(p, r, fs, m)]
  {
    hide Step, LogStep, Delivers, Logs, Disjoint, Emptied, Held;
    DeliveryForgets(p, r, fs, n);
    LogsAreDisjoint(p, r, fs, n);
    RemovedIsGone(Logs(p, r, fs, n), n, Emptied(p, r, fs, n), i);
    NotHeld(Logs(p, r, fs, m), Emptied(p, r, fs, m), i);
    GoneForGood(p, r, fs, n + 1, m, i);
  }
}
