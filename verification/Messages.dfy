/** Multipart messages and the signal encoding that zsock_signal and zsock_wait rely on. */
module Messages {

  type Byte = x: int | 0 <= x < 256

  type Frame = seq<Byte>

  /** A message on a socket: its frames, in order.  A message without frames is never on the wire. */
  type Msg = seq<Frame>

  const SIGNAL_BASE: nat := 0x7766554433221100

  /** The n low bytes of v, in the order the host stores them. */
  function Store(v: nat, n: nat): (f: Frame)
    ensures |f| == n
  {
    if n == 0 then [] else [v % 256] + Store(v / 256, n - 1)
  }

  function Load(f: Frame): nat {
    if f == [] then 0 else f[0] + 256 * Load(f[1..])
  }

  function Power256(n: nat): nat {
    if n == 0 then 1 else 256 * Power256(n - 1)
  }

  function NewSignal(status: Byte): Msg {
    [Store(SIGNAL_BASE + status, 8)]
  }

  function ContentSize(m: Msg): nat {
    if m == [] then 0 else |m[0]| + ContentSize(m[1..])
  }

  /** The status a signal message carries, or -1 for any other message.  Masking out the low byte of
      the stored value is the division by 256. */
  function SignalStatus(m: Msg): int {
    if |m| == 1 && ContentSize(m) == 8 && Load(m[0]) / 256 == SIGNAL_BASE / 256
    then Load(m[0]) % 256
    else -1
  }

  predicate IsSignal(m: Msg) {
    SignalStatus(m) >= 0
  }

  lemma {:induction false} LoadStore(v: nat, n: nat)
    requires v < Power256(n)
    ensures Load(Store(v, n)) == v
  {
    if n > 0 {
      LoadStore(v / 256, n - 1);
      assert Store(v, n)[1..] == Store(v / 256, n - 1);
    }
  }

  lemma {:induction false} StoreLoad(f: Frame)
    ensures Load(f) < Power256(|f|) && Store(Load(f), |f|) == f
  {
    if f != [] {
      StoreLoad(f[1..]);
      assert Load(f) / 256 == Load(f[1..]) && Load(f) % 256 == f[0];
      assert f == [f[0]] + f[1..];
    }
  }

  lemma Power256Of8()
    ensures Power256(8) == 0x1_0000_0000_0000_0000
  {
    assert Power256(4) == 0x1_0000_0000;
    assert Power256(8) == 256 * (256 * (256 * (256 * Power256(4))));
  }

  /** Signals are distinguishable: the 256 messages made by NewSignal are recognised, each with the
      status it was made from, and no other message is. */
  lemma SignalsAreExactlyTheSignalMessages(m: Msg)
    ensures forall status: Byte :: SignalStatus(NewSignal(status)) == status
    ensures IsSignal(m) <==> exists status: Byte :: m == NewSignal(status)
  {
    Power256Of8();
    forall status: Byte
      ensures SignalStatus(NewSignal(status)) == status
    {
      LoadStore(SIGNAL_BASE + status, 8);
      assert ContentSize(NewSignal(status)) == |NewSignal(status)[0]| + ContentSize([]);
    }
    if IsSignal(m) {
      var status: Byte := Load(m[0]) % 256;
      assert ContentSize(m) == |m[0]| + ContentSize([]);
      StoreLoad(m[0]);
      assert Load(m[0]) == SIGNAL_BASE + status;
      assert m == NewSignal(status);
    }
  }

  /** The eight bytes of a signal on the wire, from a host that stores the low byte first. */
  lemma SignalBytes(status: Byte)
    ensures NewSignal(status) == [[status, 0x11, 0x22, 0x33, 0x44, 0x55, 0x66, 0x77]]
  {
    var v := SIGNAL_BASE + status;
    assert v % 256 == status && v / 256 == 0x77665544332211;
    LowBytes(v);
    LowBytes(0x77665544);
    assert v / 256 / 256 / 256 / 256 == 0x77665544 && 0x77665544 / 256 / 256 / 256 / 256 == 0;
    StoreSplits(v, 4);
    assert Store(v, 4) == [status, 0x11, 0x22, 0x33];
    assert Store(0x77665544, 4) == [0x44, 0x55, 0x66, 0x77];
    assert [status, 0x11, 0x22, 0x33] + [0x44, 0x55, 0x66, 0x77] ==
      [status, 0x11, 0x22, 0x33, 0x44, 0x55, 0x66, 0x77];
  }

  lemma LowBytes(v: nat)
    ensures Store(v, 4) == [v % 256, v / 256 % 256, v / 256 / 256 % 256, v / 256 / 256 / 256 % 256]
  {
    var a := v / 256;
    var b := a / 256;
    var c := b / 256;
    assert Store(c, 1) == [c % 256] + Store(c / 256, 0) == [c % 256];
    assert Store(b, 2) == [b % 256] + Store(c, 1) == [b % 256, c % 256];
    assert Store(a, 3) == [a % 256] + Store(b, 2) == [a % 256, b % 256, c % 256];
    assert Store(v, 4) == [v % 256] + Store(a, 3);
  }

  /** Four bytes and then the others. */
  lemma StoreSplits(v: nat, n: nat)
    ensures Store(v, n + 4) == Store(v, 4) + Store(v / 256 / 256 / 256 / 256, n)
  {
    var a := v / 256;
    var b := a / 256;
    var c := b / 256;
    LowBytes(v);
    StoreOne(v, n + 4);
    StoreOne(a, n + 3);
    StoreOne(b, n + 2);
    StoreOne(c, n + 1);
    FourThenRest(v % 256, a % 256, b % 256, c % 256, Store(c / 256, n));
  }

  lemma FourThenRest(a: Byte, b: Byte, c: Byte, d: Byte, rest: Frame)
    ensures [a] + ([b] + ([c] + ([d] + rest))) == [a, b, c, d] + rest
  {
  }

  lemma StoreOne(v: nat, n: nat)
    requires n > 0
    ensures Store(v, n) == [v % 256] + Store(v / 256, n - 1)
  {
  }

  predicate HasSignal(ms: seq<Msg>) {
    exists i :: 0 <= i < |ms| && IsSignal(ms[i])
  }

  function CountSignals(ms: seq<Msg>): nat {
    if ms == [] then 0 else (if IsSignal(ms[0]) then 1 else 0) + CountSignals(ms[1..])
  }

  lemma {:induction false} CountSignalsAppend(a: seq<Msg>, b: seq<Msg>)
    ensures CountSignals(a + b) == CountSignals(a) + CountSignals(b)
  {
    if a == [] {
      assert a + b == b;
    } else {
      CountSignalsAppend(a[1..], b);
      assert (a + b)[1..] == a[1..] + b;
    }
  }

  lemma {:induction false} CountSignalsZero(ms: seq<Msg>)
    ensures CountSignals(ms) == 0 <==> !HasSignal(ms)
  {
    if ms != [] {
      CountSignalsZero(ms[1..]);
      if IsSignal(ms[0]) {
        assert HasSignal(ms);
      } else {
        assert forall i :: 0 < i < |ms| ==> ms[i] == ms[1..][i - 1];
      }
    }
  }

  lemma CountSignalsBefore(ms: seq<Msg>, n: nat)
    requires n < |ms| && IsSignal(ms[n])
    ensures CountSignals(ms[..n]) < CountSignals(ms)
  {
    CountSignalsAppend(ms[..n], ms[n..]);
    assert ms == ms[..n] + ms[n..];
  }

  /** The bytes of a C string literal. */
  function Text(s: string): Frame {
    seq(|s|, i requires 0 <= i < |s| => s[i] as int % 256)
  }

  /** The C string held in these bytes. */
  function CString(f: Frame): Frame {
    if f == [] || f[0] == 0 then [] else [f[0]] + CString(f[1..])
  }

  /** It is what comes before the first zero byte, or everything. */
  lemma {:induction false} CStringIs(f: Frame, s: Frame)
    ensures CString(f) == s <==>
      && |s| <= |f| && s == f[..|s|] && (forall i :: 0 <= i < |s| ==> s[i] != 0)
      && (|s| < |f| ==> f[|s|] == 0)
    decreases |f|
  {
    if f != [] && f[0] != 0 {
      if s != [] {
        CStringIs(f[1..], s[1..]);
        CStringCons(f, s);
      } else {
        assert CString(f) != [];
      }
    }
  }

  lemma CStringCons(f: Frame, s: Frame)
    requires f != [] && s != []
    ensures s == [f[0]] + s[1..] <==> s[0] == f[0]
    ensures |s| <= |f| && s[0] == f[0] ==> (s == f[..|s|] <==> s[1..] == f[1..][..|s| - 1])
    ensures s[0] != 0 ==>
      ((forall i :: 0 <= i < |s| ==> s[i] != 0) <==> (forall i :: 0 <= i < |s| - 1 ==> s[1..][i] != 0))
  {
    if |s| <= |f| && s[0] == f[0] {
      assert f[..|s|] == [f[0]] + f[1..][..|s| - 1];
      assert s == [s[0]] + s[1..];
      if s == f[..|s|] {
        assert s[1..] == f[..|s|][1..];
      }
    }
    if forall i :: 0 <= i < |s| - 1 ==> s[1..][i] != 0 {
      forall i | 0 < i < |s|
        ensures s[i] != 0 || s[0] == 0
      {
        assert s[1..][i - 1] == s[i];
      }
    }
  }

  lemma {:induction false} CStringOfClean(f: Frame)
    requires forall i :: 0 <= i < |f| ==> f[i] != 0
    ensures CString(f) == f
  {
    if f != [] {
      CStringOfClean(f[1..]);
      assert f == [f[0]] + f[1..];
    }
  }
}
