/** The streaming sampler behind ANALYZE: stat3_init and stat3_push. */
module Sampler {
  import opened Arithmetic

  datatype Sample = Sample(iRowid: int, nEq: nat, nLt: nat, nDLt: int, isPSample: bool, iHash: nat)

  /** The test of stat3_push for a sample that may displace another. */
  predicate Less(x: Sample, y: Sample) {
    x.nEq < y.nEq || (x.nEq == y.nEq && x.iHash < y.iHash)
  }

  /** What a stored sample promises about one that was turned away: at least as many equal rows,
      and on a tie at least as large a hash. */
  ghost predicate NoBetter(x: Sample, y: Sample) {
    x.nEq <= y.nEq && (x.nEq == y.nEq ==> x.iHash <= y.iHash)
  }

  function Periodic(s: seq<Sample>): (n: nat)
    ensures n <= |s|
  {
    if s == [] then 0 else Periodic(s[..|s| - 1]) + if s[|s| - 1].isPSample then 1 else 0
  }

  lemma {:induction false} PeriodicAll(s: seq<Sample>)
    requires forall i :: 0 <= i < |s| ==> s[i].isPSample
    ensures Periodic(s) == |s|
    decreases |s|
  {
    if |s| > 0 {
      PeriodicAll(s[..|s| - 1]);
    }
  }

  lemma {:induction false} PeriodicWithout(s: seq<Sample>, p: nat)
    requires p < |s| && !s[p].isPSample
    ensures Periodic(s[..p] + s[p + 1..]) == Periodic(s)
    decreases |s|
  {
    var n := |s| - 1;
    if p == n {
      assert s[..p] + s[p + 1..] == s[..n];
    } else {
      PeriodicWithout(s[..n], p);
      assert (s[..p] + s[p + 1..])[..n - 1] == s[..n][..p] + s[..n][p + 1..];
    }
  }

  /** Every group that crosses a multiple of this many rows is sampled. */
  function Period(nRow: nat, mxSample: nat): (n: nat)
    ensures n > 0
  {
    nRow / (mxSample / 3 + 1) + 1
  }

  /** The period is the least number of which a third of the samples, plus one, exceeds the rows. */
  lemma PeriodLeast(nRow: nat, mxSample: nat)
    ensures var d, period := mxSample / 3 + 1, Period(nRow, mxSample);
      d * (period - 1) <= nRow < d * period
  {
    Divided(nRow, mxSample / 3 + 1);
  }

  /** No more than a third of the samples can be periodic. */
  lemma PeriodBound(nRow: nat, mxSample: nat)
    ensures Bin(nRow, Period(nRow, mxSample)) <= mxSample / 3
  {
    var d := mxSample / 3 + 1;
    var period := Period(nRow, mxSample);
    Divided(nRow, d);
    assert period * d == d * (nRow / d) + d;
    BelowProduct(nRow, period, d);
    BinPlace(nRow, period);
  }

  const PRN_MODULUS := 0x1_0000_0000

  function NextPrn(prn: nat): (r: nat)
    ensures r < PRN_MODULUS
  {
    (prn * 1103515245 + 12345) % PRN_MODULUS
  }

  /** The generator is linear congruential, in 32 bits. */
  lemma PrnIs(prn: nat)
    ensures NextPrn(prn) < 0x1_0000_0000 && (NextPrn(prn) - (prn * 1103515245 + 12345)) % 0x1_0000_0000 == 0
  {
    var n := prn * 1103515245 + 12345;
    Divided(n, PRN_MODULUS);
    Quotient(NextPrn(prn) - n, PRN_MODULUS, -(n / PRN_MODULUS), 0);
  }

  /** Samples as they were pushed: in key order, without overlap, within the first `pos` rows. */
  ghost predicate InOrder(s: seq<Sample>, pos: nat) {
    && (forall i, j :: 0 <= i < j < |s| ==> s[i].nLt < s[j].nLt)
    && (forall i :: 0 <= i < |s| ==> s[i].nEq > 0 && s[i].nLt + s[i].nEq <= pos)
  }

  /** Index `m` is the least of the samples that are not periodic. */
  ghost predicate Least(s: seq<Sample>, m: int) {
    && 0 <= m < |s| && !s[m].isPSample
    && forall i :: 0 <= i < |s| && !s[i].isPSample ==> NoBetter(s[m], s[i])
  }

  ghost function Members(s: seq<Sample>): set<Sample> {
    set x | x in s
  }

  ghost predicate Outdone(d: Sample, s: seq<Sample>) {
    !d.isPSample && forall i :: 0 <= i < |s| ==> s[i].isPSample || NoBetter(d, s[i])
  }

  /** Nothing that was discarded was periodic or preferable to what is held. */
  ghost predicate Best(s: seq<Sample>, dropped: set<Sample>) {
    forall d :: d in dropped ==> Outdone(d, s)
  }

  /** The search loop of stat3_push for the new minimum. */
  method FindMin(a: array<Sample>) returns (iMin: nat)
    requires Periodic(a[..]) < a.Length
    ensures Least(a[..], iMin)
  {
    iMin := 0;
    while a[iMin].isPSample
      invariant iMin < a.Length && forall k :: 0 <= k < iMin ==> a[k].isPSample
      decreases a.Length - iMin
    {
      if iMin == a.Length - 1 {
        PeriodicAll(a[..]);
      }
      iMin := iMin + 1;
    }
    var i := iMin + 1;
    while i < a.Length
      invariant iMin < i <= a.Length && Least(a[..i], iMin)
    {
      if !a[i].isPSample && Less(a[i], a[iMin]) {
        iMin := i;
      }
      i := i + 1;
    }
    assert a[..a.Length] == a[..];
  }

  /** `t` is `s` without the sample at `m` and with `x` at the end. */
  ghost predicate Evicted(s: seq<Sample>, m: nat, x: Sample, t: seq<Sample>) {
    && m < |s| == |t| && t[|t| - 1] == x
    && (forall i :: 0 <= i < m ==> t[i] == s[i])
    && (forall i :: m <= i < |s| - 1 ==> t[i] == s[i + 1])
  }

  lemma EvictOrder(s: seq<Sample>, m: nat, x: Sample, t: seq<Sample>)
    requires Evicted(s, m, x, t) && InOrder(s, x.nLt) && x.nEq > 0
    ensures InOrder(t, x.nLt + x.nEq)
  {
  }

  /** The least sample makes room for a preferable or a periodic one. */
  lemma EvictBest(s: seq<Sample>, m: nat, x: Sample, t: seq<Sample>, dropped: set<Sample>)
    requires Evicted(s, m, x, t) && Least(s, m) && Best(s, dropped) && (x.isPSample || Less(s[m], x))
    ensures Best(t, dropped + {s[m]})
  {
    forall d | d in dropped + {s[m]}
      ensures Outdone(d, t)
    {
      assert Outdone(d, s);
    }
  }

  lemma EvictCount(s: seq<Sample>, m: nat, x: Sample, t: seq<Sample>)
    requires Evicted(s, m, x, t) && !s[m].isPSample
    ensures Periodic(t) == Periodic(s) + if x.isPSample then 1 else 0
  {
    PeriodicWithout(s, m);
    assert t[..|s| - 1] == s[..m] + s[m + 1..];
  }

  lemma EvictBag(s: seq<Sample>, m: nat, x: Sample, t: seq<Sample>)
    requires Evicted(s, m, x, t)
    ensures Members(t) + {s[m]} == Members(s) + {x}
  {
    forall y | y in s
      ensures y in t || y == s[m]
    {
      var i :| 0 <= i < |s| && s[i] == y;
      assert i < m ==> t[i] == y;
      assert i > m ==> t[i - 1] == y;
    }
  }

  /** A sample that is turned away is no better than the least. */
  lemma Reject(s: seq<Sample>, m: nat, x: Sample, dropped: set<Sample>)
    requires Least(s, m) && Best(s, dropped) && !x.isPSample && !Less(s[m], x)
    ensures Best(s, dropped + {x})
  {
    assert Outdone(x, s);
  }

  lemma Append(s: seq<Sample>, x: Sample)
    requires InOrder(s, x.nLt) && x.nEq > 0
    ensures var t := s + [x];
      InOrder(t, x.nLt + x.nEq) && Periodic(t) == Periodic(s) + (if x.isPSample then 1 else 0) &&
        Members(t) == Members(s) + {x}
  {
    assert (s + [x])[..|s|] == s;
  }

  /** What the samples held, those discarded and those pushed have to do with each other. */
  ghost predicate Sound(s: seq<Sample>, mx: nat, pos: nat, nRow: nat, period: nat, dropped: set<Sample>,
      pushed: set<Sample>) {
    && 1 <= mx && |s| <= mx && pos <= nRow && period > 0 && Bin(nRow, period) <= mx / 3
    && InOrder(s, pos) && Periodic(s) <= Bin(pos, period)
    && Best(s, dropped) && (|s| < mx ==> dropped == {})
    && pushed == Members(s) + dropped
  }

  /** A group that may be pushed next. */
  ghost predicate Group(x: Sample, pos: nat, nRow: nat, period: nat)
    requires period > 0
  {
    x.nEq > 0 && x.nLt == pos && pos + x.nEq <= nRow && x.isPSample == (Bin(pos, period) != Bin(pos + x.nEq, period))
  }

  lemma Room(s: seq<Sample>, mx: nat, pos: nat, nRow: nat, period: nat, dropped: set<Sample>, pushed: set<Sample>)
    requires Sound(s, mx, pos, nRow, period, dropped, pushed) && |s| == mx
    ensures Periodic(s) < |s|
  {
    BinMonotone(pos, nRow, period);
  }

  lemma Admit(s: seq<Sample>, x: Sample, mx: nat, pos: nat, nRow: nat, period: nat, dropped: set<Sample>,
      pushed: set<Sample>)
    requires Sound(s, mx, pos, nRow, period, dropped, pushed) && |s| < mx && Group(x, pos, nRow, period)
    ensures Sound(s + [x], mx, pos + x.nEq, nRow, period, dropped, pushed + {x})
  {
    Append(s, x);
    BinMonotone(pos, pos + x.nEq, period);
  }

  lemma Displace(s: seq<Sample>, m: nat, x: Sample, t: seq<Sample>, mx: nat, pos: nat, nRow: nat, period: nat,
      dropped: set<Sample>, pushed: set<Sample>)
    requires Sound(s, mx, pos, nRow, period, dropped, pushed) && |s| == mx && Group(x, pos, nRow, period)
    requires Least(s, m) && (x.isPSample || Less(s[m], x)) && Evicted(s, m, x, t)
    ensures Sound(t, mx, pos + x.nEq, nRow, period, dropped + {s[m]}, pushed + {x})
  {
    EvictOrder(s, m, x, t);
    EvictBest(s, m, x, t, dropped);
    EvictCount(s, m, x, t);
    EvictBag(s, m, x, t);
    BinMonotone(pos, pos + x.nEq, period);
    Balance(Members(s), Members(t), dropped, pushed, x, s[m]);
  }

  lemma Balance<T>(before: set<T>, after: set<T>, dropped: set<T>, pushed: set<T>, x: T, y: T)
    requires pushed == before + dropped && after + {y} == before + {x}
    ensures pushed + {x} == after + (dropped + {y})
  {
    assert pushed + {x} == (before + {x}) + dropped;
  }

  lemma Refuse(s: seq<Sample>, m: nat, x: Sample, mx: nat, pos: nat, nRow: nat, period: nat,
      dropped: set<Sample>, pushed: set<Sample>)
    requires Sound(s, mx, pos, nRow, period, dropped, pushed) && |s| == mx && Group(x, pos, nRow, period)
    requires Least(s, m) && !x.isPSample && !Less(s[m], x)
    ensures Sound(s, mx, pos + x.nEq, nRow, period, dropped + {x}, pushed + {x})
  {
    Reject(s, m, x, dropped);
    BinMonotone(pos, pos + x.nEq, period);
  }

  class Stat3Accum {
    const nRow: nat
    const nPSample: nat
    const mxSample: nat
    const a: array<Sample>
    var iMin: nat
    var nSample: nat
    var iPrn: nat

    ghost var held: seq<Sample>         // the samples in use
    ghost var pos: nat                  // rows in the groups pushed so far
    ghost var pushed: set<Sample>
    ghost var dropped: set<Sample>

    ghost predicate Valid()
      reads this, a
    {
      Held() && (nSample == mxSample ==> Least(held, iMin))
    }

    /** stat3_init */
    constructor (nRow: nat, mxSample: nat, prn: nat)
      requires mxSample >= 1
      ensures Valid() && fresh(a) && this.nRow == nRow && this.mxSample == mxSample
      ensures pos == 0 && pushed == {} && iPrn == prn && nPSample == Period(nRow, mxSample)
    {
      PeriodBound(nRow, mxSample);
      this.nRow, this.mxSample, nPSample := nRow, mxSample, Period(nRow, mxSample);
      a := new Sample[mxSample](i => Sample(0, 0, 0, 0, false, 0));
      iMin, nSample, iPrn := 0, 0, prn;
      held, pos, pushed, dropped := [], 0, {}, {};
    }

    /** stat3_push */
    method Push(nEq: nat, nLt: nat, nDLt: int, rowid: int)
      requires Valid() && (nEq > 0 ==> nLt == pos && nLt + nEq <= nRow)
      modifies this, a
      ensures Valid() && pos == old(pos) + nEq
      ensures nEq == 0 ==> pushed == old(pushed) && iPrn == old(iPrn)
      ensures nEq > 0 ==> iPrn == NextPrn(old(iPrn))
      ensures nEq > 0 ==>
        pushed == old(pushed) + {Sample(rowid, nEq, nLt, nDLt, Bin(nLt, nPSample) != Bin(nLt + nEq, nPSample), iPrn)}
    {
      if nEq == 0 {
        return;
      }
      iPrn := NextPrn(iPrn);
      BinPlace(nLt, nPSample);
      BinPlace(nLt + nEq, nPSample);
      var isPSample := nLt / nPSample != (nLt + nEq) / nPSample;
      Offer(Sample(rowid, nEq, nLt, nDLt, isPSample, iPrn));
    }

    method Offer(x: Sample)
      requires Valid() && Group(x, pos, nRow, nPSample)
      modifies this`iMin, this`nSample, this`held, this`pos, this`pushed, this`dropped, a
      ensures Valid() && pos == old(pos) + x.nEq && pushed == old(pushed) + {x}
    {
      if nSample < mxSample {
        Insert(x);
        NewMin();
      } else if x.isPSample || Less(a[iMin], x) {
        Replace(x);
        NewMin();
      } else {
        Refuse(held, iMin, x, mxSample, pos, nRow, nPSample, dropped, pushed);
        dropped := dropped + {x};
        pos, pushed := pos + x.nEq, pushed + {x};
      }
    }

    ghost predicate Held()
      reads this, a
    {
      && a.Length == mxSample && nSample <= mxSample && held == a[..nSample]
      && Sound(held, mxSample, pos, nRow, nPSample, dropped, pushed)
    }

    method Insert(x: Sample)
      requires Held() && nSample < mxSample && Group(x, pos, nRow, nPSample)
      modifies this`nSample, this`held, this`pos, this`pushed, a
      ensures Held() && pos == old(pos) + x.nEq && pushed == old(pushed) + {x}
    {
      Admit(held, x, mxSample, pos, nRow, nPSample, dropped, pushed);
      PutLast(a, nSample, x);
      nSample, held := nSample + 1, held + [x];
      pos, pushed := pos + x.nEq, pushed + {x};
    }

    method Replace(x: Sample)
      requires Held() && nSample == mxSample && Least(held, iMin) && Group(x, pos, nRow, nPSample)
      requires x.isPSample || Less(held[iMin], x)
      modifies this`held, this`pos, this`pushed, this`dropped, a
      ensures Held() && pos == old(pos) + x.nEq && pushed == old(pushed) + {x}
    {
      assert held == a[..];
      Shift(a, iMin, x);
      assert a[..nSample] == a[..];
      Exchange(x);
    }

    ghost method Exchange(x: Sample)
      requires a.Length == mxSample == nSample && Evicted(held, iMin, x, a[..nSample])
      requires Sound(held, mxSample, pos, nRow, nPSample, dropped, pushed) && Least(held, iMin)
      requires Group(x, pos, nRow, nPSample)
      requires x.isPSample || Less(held[iMin], x)
      modifies this`held, this`pos, this`pushed, this`dropped
      ensures Held() && pos == old(pos) + x.nEq && pushed == old(pushed) + {x}
    {
      Displace(held, iMin, x, a[..nSample], mxSample, pos, nRow, nPSample, dropped, pushed);
      dropped, held := dropped + {held[iMin]}, a[..nSample];
      pos, pushed := pos + x.nEq, pushed + {x};
    }

    method NewMin()
      requires Held()
      modifies this`iMin
      ensures Valid()
    {
      if nSample == mxSample {
        assert a[..nSample] == a[..];
        Room(held, mxSample, pos, nRow, nPSample, dropped, pushed);
        iMin := FindMin(a);
      }
    }
  }

  /** The memmove over the least sample, and the new one at the end. */
  method Shift(a: array<Sample>, m: nat, x: Sample)
    requires m < a.Length
    modifies a
    ensures Evicted(old(a[..]), m, x, a[..])
  {
    var n := a.Length - 1;
    forall i | m <= i < n {
      a[i] := a[i + 1];
    }
    a[n] := x;
  }

  method PutLast(a: array<Sample>, n: nat, x: Sample)
    requires n < a.Length
    modifies a
    ensures a[..n + 1] == old(a[..n]) + [x]
  {
    a[n] := x;
  }
}
