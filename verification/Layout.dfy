/** Where the bytes of packed lists and dictionaries are (src/zlistx.c, src/zhashx.c), by the grammar in the
    comments of zhashx_pack: numbers are unsigned, in network byte order. */
module Layout {
  import opened Messages
  import opened Wire
  import opened Dictionary
  import opened Wrappers

  /** The number these bytes spell, the most significant first. */
  function Spelled(f: Frame): nat {
    if f == [] then 0 else 256 * Spelled(f[..|f| - 1]) + f[|f| - 1]
  }

  lemma SpelledFour(f: Frame)
    requires |f| == 4
    ensures Spelled(f) == 0x100_0000 * (f[0] as nat) + 0x1_0000 * (f[1] as nat) + 256 * (f[2] as nat) + f[3]
  {
    assert f[..3][..2] == f[..2] && f[..2][..1] == f[..1] && f[..1][..0] == [];
    assert Spelled(f[..1]) == f[0];
    assert Spelled(f[..2]) == 256 * (f[0] as nat) + f[1];
    assert Spelled(f[..3]) == 0x1_0000 * (f[0] as nat) + 256 * (f[1] as nat) + f[2];
  }

  /** A number-4 spells the low 32 bits. */
  lemma NumberSpells(v: nat)
    ensures Spelled(Number4(v)) == v % WORD
  {
    SpelledFour(Number4(v));
    FourDigits(v);
    RemainderIs(v, v / 256 / 256 / 256 / 256, Spelled(Number4(v)));
  }

  /** a comes before b, byte by byte. */
  predicate Before(a: Frame, b: Frame) {
    exists i :: 0 <= i < |a| && i < |b| && a[i] < b[i] && a[..i] == b[..i]
  }

  lemma FirstDifference(a: Frame, b: Frame) returns (i: nat)
    requires |a| == |b| && a != b
    ensures i < |a| && a[i] != b[i] && a[..i] == b[..i]
  {
    i := 0;
    while a[i] == b[i]
      invariant i < |a| && a[..i] == b[..i]
      invariant a[i..] != b[i..]
      decreases |a| - i
    {
      assert a[i..] == [a[i]] + a[i + 1..] && b[i..] == [b[i]] + b[i + 1..];
      assert i + 1 < |a|;
      assert a[..i + 1] == a[..i] + [a[i]] && b[..i + 1] == b[..i] + [b[i]];
      i := i + 1;
    }
  }

  lemma SmallerSpelled(a: Frame, b: Frame)
    requires |a| == |b| == 4 && Spelled(a) < Spelled(b)
    ensures Before(a, b)
  {
    var i := FirstDifference(a, b);
    SpelledFour(a);
    SpelledFour(b);
    if i > 0 {
      assert a[..i][0] == b[..i][0];
    }
    if i > 1 {
      assert a[..i][1] == b[..i][1];
    }
    if i > 2 {
      assert a[..i][2] == b[..i][2];
    }
    assert a[i] < b[i];
  }

  /** Numbers that fit are ordered as their bytes are, which leaves network order alone. */
  lemma NumbersInOrder(v: nat, w: nat)
    requires v < w < WORD
    ensures Before(Number4(v), Number4(w))
  {
    NumberSpells(v);
    NumberSpells(w);
    RemainderIs(v, 0, v);
    RemainderIs(w, 0, w);
    SmallerSpelled(Number4(v), Number4(w));
  }

  /** A number is read as what its bytes spell. */
  lemma ValueIsSpelled(f: Frame)
    requires |f| >= 4
    ensures Value4(f) == Spelled(f[..4])
  {
    SpelledFour(f[..4]);
  }

  // ----- Lists -----

  /** Where the i-th string begins: after the count and a length and a text for each before it. */
  function ItemAt(l: seq<Frame>, i: nat): nat
    requires i <= |l|
  {
    if i == 0 then 4 else ItemAt(l, i - 1) + 4 + |l[i - 1]|
  }

  lemma {:induction false} ItemsBefore(l: seq<Frame>, i: nat)
    requires i <= |l|
    ensures |Number4(|l|) + PackItems(l[..i])| == ItemAt(l, i)
  {
    if i == 0 {
      assert l[..0] == [];
    } else {
      ItemsBefore(l, i - 1);
      PackItemsAppend(l, i - 1);
    }
  }

  /** The frame begins with this number, in network order. */
  predicate Counts(f: Frame, n: nat) {
    |f| >= 4 && Spelled(f[..4]) == n % WORD
  }

  /** At place o the frame has a string behind its length in network order. */
  predicate LongStringAt(f: Frame, o: nat, s: Frame) {
    o + 4 + |s| <= |f| && Spelled(f[o..o + 4]) == |s| % WORD && f[o + 4..o + 4 + |s|] == s
  }

  /** At place o the frame has a string behind its length in one byte. */
  predicate ShortStringAt(f: Frame, o: nat, s: Frame) {
    o + 1 + |s| <= |f| && f[o] == |s| % 256 && f[o + 1..o + 1 + |s|] == s
  }

  /** Every string is where the lengths before it say, behind its length in network order; nothing else is in
      the frame. */
  lemma ListLayout(l: seq<Frame>, i: nat)
    requires i < |l|
    ensures Counts(PackList(l), |l|) && |PackList(l)| == ItemAt(l, |l|)
    ensures LongStringAt(PackList(l), ItemAt(l, i), l[i])
  {
    ItemsBefore(l, i);
    ItemsBefore(l, |l|);
    assert l[..|l|] == l;
    CountFirst(|l|, PackItems(l));
    AroundItem(l, i);
    ItemLayout(l[i], Number4(|l|) + PackItems(l[..i]), PackItems(l[i + 1..]), PackList(l), ItemAt(l, i));
  }

  lemma CountFirst(n: nat, body: Frame)
    ensures Counts(Number4(n) + body, n)
  {
    NumberSpells(n);
    assert (Number4(n) + body)[..4] == Number4(n);
  }

  lemma AroundItem(l: seq<Frame>, i: nat)
    requires i < |l|
    ensures PackList(l) == (Number4(|l|) + PackItems(l[..i])) + Number4(|l[i]|) + l[i] + PackItems(l[i + 1..])
  {
    PackItemsAppend(l, i);
    PackItemsSplit(l, i + 1);
  }

  lemma ItemLayout(s: Frame, before: Frame, rest: Frame, f: Frame, o: nat)
    requires f == before + Number4(|s|) + s + rest && o == |before|
    ensures LongStringAt(f, o, s)
  {
    NumberSpells(|s|);
    assert f[o..o + 4] == Number4(|s|);
  }

  // ----- Dictionaries -----

  function PairAt(ps: seq<Pair>, i: nat): nat
    requires i <= |ps|
  {
    if i == 0 then 4 else PairAt(ps, i - 1) + 1 + |ps[i - 1].0| + 4 + |ps[i - 1].1|
  }

  lemma {:induction false} PairsBefore(ps: seq<Pair>, i: nat)
    requires i <= |ps|
    ensures |Number4(|ps|) + PackPairs(ps[..i])| == PairAt(ps, i)
  {
    if i == 0 {
      assert ps[..0] == [];
    } else {
      PairsBefore(ps, i - 1);
      PackPairsAppend(ps, i - 1);
    }
  }

  predicate PairStoredAt(f: Frame, o: nat, p: Pair) {
    ShortStringAt(f, o, p.0) && LongStringAt(f, o + 1 + |p.0|, p.1)
  }

  /** The same for a dictionary: the length of the name in one byte, the name, the length of the value in
      network order, the value. */
  lemma DictLayout(ps: seq<Pair>, i: nat)
    requires i < |ps|
    ensures Counts(PackDict(ps), |ps|) && |PackDict(ps)| == PairAt(ps, |ps|)
    ensures PairStoredAt(PackDict(ps), PairAt(ps, i), ps[i])
  {
    DictSize(ps);
    var before, rest := Number4(|ps|) + PackPairs(ps[..i]), PackPairs(ps[i + 1..]);
    PairsBefore(ps, i);
    AroundPair(ps, i);
    PairLayout(ps[i], before, rest, PackDict(ps), PairAt(ps, i));
  }

  lemma DictSize(ps: seq<Pair>)
    ensures Counts(PackDict(ps), |ps|) && |PackDict(ps)| == PairAt(ps, |ps|)
  {
    PairsBefore(ps, |ps|);
    assert ps[..|ps|] == ps;
    CountFirst(|ps|, PackPairs(ps));
  }

  lemma AroundPair(ps: seq<Pair>, i: nat)
    requires i < |ps|
    ensures PackDict(ps) == (Number4(|ps|) + PackPairs(ps[..i])) + PackPair(ps[i]) + PackPairs(ps[i + 1..])
  {
    PackPairsAppend(ps, i);
    PackPairsSplit(ps, i + 1);
  }

  lemma PairLayout(p: Pair, before: Frame, rest: Frame, f: Frame, o: nat)
    requires f == before + PackPair(p) + rest && o == |before|
    ensures PairStoredAt(f, o, p)
  {
    var name := before + [|p.0| % 256] + p.0;
    ItemLayout(p.1, name, rest, f, o + 1 + |p.0|);
  }

  // ----- What unpacking makes of the count -----

  /** The count does not matter unless it is zero, and then nothing else does.  A frame too short for one is
      empty. */
  lemma CountIsIdle(count: Frame, other: Frame, body: Frame)
    requires |count| == |other| == 4 && Spelled(count) != 0
    ensures Spelled(other) == 0 ==> UnpackList(other + body) == Some([]) && UnpackDict(other + body) == Some(map[])
    ensures Spelled(other) != 0 ==>
      UnpackList(other + body) == UnpackList(count + body) && UnpackDict(other + body) == UnpackDict(count + body)
    ensures |body| < 4 ==> UnpackList(body) == Some([]) && UnpackDict(body) == Some(map[])
  {
    var a, b := count + body, other + body;
    ValueIsSpelled(a);
    ValueIsSpelled(b);
    assert a[..4] == count && b[..4] == other && a[4..] == body && b[4..] == body;
    if Spelled(other) != 0 {
      SameScan(a, b, 4, map[]);
    }
  }

  lemma SameRound(a: Frame, b: Frame, i: nat)
    requires |a| == |b| && i < |a| && a[i..] == b[i..]
    ensures RoundAt(a, i) == RoundAt(b, i) && a[RoundAt(a, i).next..] == b[RoundAt(a, i).next..]
  {
    assert a[i] == a[i..][0] == b[i..][0] == b[i];
    var j := i + 1 + a[i];
    if j + 4 <= |a| {
      SameTail(a, b, i, j);
      SameSlice(a, b, i, i + 1, j);
      if j + 4 + Value4(a[j..]) <= |a| {
        SameSlice(a, b, i, j + 4, j + 4 + Value4(a[j..]));
      }
    }
    SameTail(a, b, i, RoundAt(a, i).next);
  }

  lemma SameTail(a: Frame, b: Frame, i: nat, j: nat)
    requires |a| == |b| && i <= j <= |a| && a[i..] == b[i..]
    ensures a[j..] == b[j..]
  {
    SliceOfSlice(a, i, j - i, j - i);
    SliceOfSlice(b, i, j - i, j - i);
  }

  lemma SameSlice(a: Frame, b: Frame, i: nat, p: nat, q: nat)
    requires |a| == |b| && i <= p <= q <= |a| && a[i..] == b[i..]
    ensures a[p..q] == b[p..q]
  {
    SliceOfSlice(a, i, p - i, q - i);
    SliceOfSlice(b, i, p - i, q - i);
  }

  lemma {:induction false} SameScan(a: Frame, b: Frame, i: nat, table: Table)
    requires |a| == |b| && i <= |a| && a[i..] == b[i..]
    ensures Scan(a, i, table) == Scan(b, i, table)
    decreases |a| - i
  {
    if i < |a| {
      SameRound(a, b, i);
      var r := RoundAt(a, i);
      if r.pair.None? {
        SameScan(a, b, r.next, table);
      } else if r.pair.value.0 !in table {
        SameScan(a, b, r.next, table[r.pair.value.0 := r.pair.value.1]);
      }
    }
  }

  // ----- Where the scan goes on after damage -----

  lemma HeadByte(frame: Frame, i: nat, x: Byte, rest: Frame)
    requires i <= |frame| && frame[i..] == [x] + rest
    ensures i < |frame| == i + 1 + |rest| && frame[i] == x && frame[i + 1..] == rest
  {
    var b := frame[i..];
    assert |b| == |frame| - i;
    assert frame[i] == b[0] && frame[i + 1..] == b[1..];
  }

  lemma TailFrom(frame: Frame, i: nat, a: Frame, b: Frame)
    requires i <= |frame| && frame[i..] == a + b
    ensures i + |a| <= |frame| && frame[i + |a|..] == b
  {
    assert |frame[i..]| == |frame| - i;
    assert frame[i + |a|..] == frame[i..][|a|..];
  }

  lemma LengthSpelled(f: Frame, length: Frame, rest: Frame)
    requires |length| == 4 && f == length + rest
    ensures Value4(f) == Spelled(length)
  {
    ValueIsSpelled(f);
    assert f[..4] == length;
  }

  lemma LongValueRound(frame: Frame, i: nat, j: nat)
    requires i < |frame| && j == i + 1 + frame[i] && j + 4 <= |frame| < j + 4 + Value4(frame[j..])
    ensures RoundAt(frame, i) == Round(None, j + 4)
  {
  }

  lemma SkipTo(frame: Frame, i: nat, j: nat)
    requires i < |frame| && RoundAt(frame, i) == Round(None, j)
    ensures Entries(frame, i) == Entries(frame, j)
  {
    assert [] + Entries(frame, j) == Entries(frame, j);
  }

  /** A length that goes past the end is skipped, and nothing but it. */
  lemma LongNameSkipped(frame: Frame, i: nat, x: Byte, rest: Frame)
    requires i <= |frame| && frame[i..] == [x] + rest && x > |rest|
    ensures |rest| < |frame| && Entries(frame, i) == Entries(frame, |frame| - |rest|)
  {
    HeadByte(frame, i, x, rest);
    SkipTo(frame, i, i + 1);
  }

  /** A name that fewer than four bytes follow is dropped, and they are looked at as a length again. */
  lemma CutPairSkipped(frame: Frame, i: nat, name: Frame, rest: Frame)
    requires |name| <= 255 && i <= |frame| && frame[i..] == [|name|] + name + rest && |rest| < 4
    ensures |rest| < |frame| && Entries(frame, i) == Entries(frame, |frame| - |rest|)
  {
    Associate([|name|], name, rest);
    HeadByte(frame, i, |name|, name + rest);
    SkipTo(frame, i, i + 1 + |name|);
  }

  /** A value whose length goes past the end is dropped with its name, and the scan goes on behind the
      length. */
  lemma LongValueSkipped(frame: Frame, i: nat, name: Frame, length: Frame, rest: Frame)
    requires |name| <= 255 && |length| == 4 && Spelled(length) > |rest|
    requires i <= |frame| && frame[i..] == [|name|] + name + length + rest
    ensures |rest| < |frame| && Entries(frame, i) == Entries(frame, |frame| - |rest|)
  {
    Associate([|name|] + name, length, rest);
    Associate([|name|], name, length + rest);
    HeadByte(frame, i, |name|, name + (length + rest));
    var j := i + 1 + |name|;
    TailFrom(frame, i + 1, name, length + rest);
    LengthSpelled(frame[j..], length, rest);
    LongValueRound(frame, i, j);
    SkipTo(frame, i, j + 4);
  }
}
