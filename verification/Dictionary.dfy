/** Packing and unpacking a dictionary (zhashx_pack_own and zhashx_unpack_own in src/zhashx.c, without a
    serializer). */
module Dictionary {
  import opened Messages
  import opened Wire
  import opened Wrappers

  type Pair = (Frame, Frame)

  type Table = map<Frame, Frame>

  /** The name as a short string, whose length is cut to a byte, then the value as a long string. */
  function PackPair(p: Pair): Frame {
    [|p.0| % 256] + p.0 + Number4(|p.1|) + p.1
  }

  function PackPairs(ps: seq<Pair>): Frame {
    if ps == [] then [] else PackPair(ps[0]) + PackPairs(ps[1..])
  }

  /** The table is packed in the order in which its buckets list it. */
  function PackDict(ps: seq<Pair>): Frame {
    Number4(|ps|) + PackPairs(ps)
  }

  /** The pairs enumerate the table, in some order. */
  ghost predicate Lists(ps: seq<Pair>, d: Table) {
    && (forall i, j :: 0 <= i < j < |ps| ==> ps[i].0 != ps[j].0)
    && (forall i :: 0 <= i < |ps| ==> ps[i].0 in d && d[ps[i].0] == ps[i].1)
    && (forall k :: k in d ==> exists i :: 0 <= i < |ps| && ps[i].0 == k)
  }

  /** What one round of the scan comes upon, if it is a whole pair, and where the next begins. */
  datatype Round = Round(pair: Option<Pair>, next: nat)

  /** A name or a value that would go past the end is skipped without a word. */
  function RoundAt(frame: Frame, i: nat): (r: Round)
    requires i < |frame|
    ensures i < r.next <= |frame|
  {
    var j := i + 1 + frame[i];
    if |frame| < j then Round(None, i + 1)
    else if |frame| < j + 4 then Round(None, j)
    else
      var n := Value4(frame[j..]);
      if |frame| < j + 4 + n then Round(None, j + 4)
      else Round(Some((CString(frame[i + 1..j]), CString(frame[j + 4..j + 4 + n]))), j + 4 + n)
  }

  /** The frame from place i on, with the table filled so far.  A name that is already there gives up the
      whole table. */
  function Scan(frame: Frame, i: nat, table: Table): Option<Table>
    requires i <= |frame|
    decreases |frame| - i
  {
    if i == |frame| then Some(table)
    else
      var r := RoundAt(frame, i);
      match r.pair
      case None => Scan(frame, r.next, table)
      case Some(p) => if p.0 in table then None else Scan(frame, r.next, table[p.0 := p.1])
  }

  function UnpackDict(frame: Frame): Option<Table> {
    if |frame| < 4 || Value4(frame) == 0 then Some(map[]) else Scan(frame, 4, map[])
  }

  ghost predicate FitsPair(k: Frame, v: Frame) {
    |k| <= 255 && |v| < WORD
  }

  /** What the grammar can hold. */
  ghost predicate Fits(d: Table) {
    forall k :: k in d ==> FitsPair(k, d[k])
  }

  lemma NameReadsBack(p: Pair, rest: Frame)
    requires FitsPair(p.0, p.1)
    ensures
      var b := PackPair(p) + rest;
      |b| > |p.0| && b[0] == |p.0| && b[1..1 + |p.0|] == p.0 && b[1 + |p.0|..] == Number4(|p.1|) + p.1 + rest
  {
    assert PackPair(p) + rest == [|p.0|] + p.0 + (Number4(|p.1|) + p.1 + rest);
  }

  lemma PairReadsBack(frame: Frame, i: nat, p: Pair, rest: Frame)
    requires FitsPair(p.0, p.1) && i <= |frame| && frame[i..] == PackPair(p) + rest
    ensures
      var j := i + 1 + |p.0|;
      && j + 4 + |p.1| + |rest| == |frame| && frame[i] == |p.0| && frame[i + 1..j] == p.0
      && Value4(frame[j..]) == |p.1| && frame[j + 4..j + 4 + |p.1|] == p.1 && frame[j + 4 + |p.1|..] == rest
  {
    var b, c, n := frame[i..], Number4(|p.1|) + p.1 + rest, 1 + |p.0|;
    ReadsBack(p.1, rest);
    NameReadsBack(p, rest);
    assert b[0] == |p.0| && b[1..n] == p.0 && b[n..] == c;
    SliceOfSlice(frame, i, 1, n);
    assert frame[i + n..] == c;
    SliceOfSlice(frame, i + n, 4, 4 + |p.1|);
  }

  /** The pairs still to come lead from the table filled so far to the whole table. */
  ghost predicate LeadsTo(ps: seq<Pair>, table: Table, d: Table) {
    && (forall i, j :: 0 <= i < j < |ps| ==> ps[i].0 != ps[j].0)
    && (forall i :: 0 <= i < |ps| ==> ps[i].0 !in table && ps[i].0 in d && d[ps[i].0] == ps[i].1)
    && (forall k :: k in table ==> k in d && d[k] == table[k])
    && (forall k :: k in d && k !in table ==> exists i :: 0 <= i < |ps| && ps[i].0 == k)
  }

  lemma LeadsOn(ps: seq<Pair>, table: Table, d: Table)
    requires LeadsTo(ps, table, d) && ps != []
    ensures LeadsTo(ps[1..], table[ps[0].0 := ps[0].1], d)
  {
    var more, rest := table[ps[0].0 := ps[0].1], ps[1..];
    forall k | k in d && k !in more
      ensures exists i :: 0 <= i < |rest| && rest[i].0 == k
    {
      var i :| 0 <= i < |ps| && ps[i].0 == k;
      assert rest[i - 1].0 == k;
    }
  }

  lemma RoundReadsPair(frame: Frame, i: nat, p: Pair, rest: Frame)
    requires FitsPair(p.0, p.1) && i <= |frame| && frame[i..] == PackPair(p) + rest && Clean(p.0) && Clean(p.1)
    ensures i < |frame| && RoundAt(frame, i).pair == Some(p) && frame[RoundAt(frame, i).next..] == rest
  {
    PairReadsBack(frame, i, p, rest);
    CStringOfClean(p.0);
    CStringOfClean(p.1);
  }

  lemma {:induction false} ScanReadsAll(frame: Frame, i: nat, ps: seq<Pair>, table: Table, d: Table)
    requires i <= |frame| && frame[i..] == PackPairs(ps)
    requires LeadsTo(ps, table, d) && Fits(d) && forall k :: k in d ==> Clean(k) && Clean(d[k])
    ensures Scan(frame, i, table) == Some(d)
    decreases |ps|
  {
    if ps == [] {
      assert table == d;
    } else {
      var p := ps[0];
      assert FitsPair(p.0, d[p.0]);
      RoundReadsPair(frame, i, p, PackPairs(ps[1..]));
      LeadsOn(ps, table, d);
      ScanReadsAll(frame, RoundAt(frame, i).next, ps[1..], table[p.0 := p.1], d);
    }
  }

  lemma RoundFits(frame: Frame, i: nat)
    requires i < |frame| && RoundAt(frame, i).pair.Some?
    ensures var p := RoundAt(frame, i).pair.value; FitsPair(p.0, p.1)
  {
    var j := i + 1 + frame[i];
    var n := Value4(frame[j..]);
    CStringNotLonger(frame[i + 1..j]);
    CStringNotLonger(frame[j + 4..j + 4 + n]);
  }

  lemma {:induction false} ScanKeepsFit(frame: Frame, i: nat, table: Table)
    requires i <= |frame| && Fits(table)
    ensures Scan(frame, i, table).Some? ==> Fits(Scan(frame, i, table).value)
    decreases |frame| - i
  {
    if i < |frame| {
      var r := RoundAt(frame, i);
      if r.pair.None? {
        ScanKeepsFit(frame, r.next, table);
      } else if r.pair.value.0 !in table {
        RoundFits(frame, i);
        ScanKeepsFit(frame, r.next, table[r.pair.value.0 := r.pair.value.1]);
      }
    }
  }

  lemma {:induction false} AsManyPairs(ps: seq<Pair>, keys: set<Frame>)
    requires forall i, j :: 0 <= i < j < |ps| ==> ps[i].0 != ps[j].0
    requires forall k :: k in keys <==> exists i :: 0 <= i < |ps| && ps[i].0 == k
    ensures |keys| == |ps|
  {
    if ps == [] {
      assert keys == {};
    } else {
      var rest, others := ps[1..], keys - {ps[0].0};
      forall k | k in others
        ensures exists i :: 0 <= i < |rest| && rest[i].0 == k
      {
        var i :| 0 <= i < |ps| && ps[i].0 == k;
        assert rest[i - 1].0 == k;
      }
      AsManyPairs(rest, others);
      assert ps[0].0 in keys;
    }
  }

  /** Whatever the order in which a table is packed, unpacking gives the table back if and only if its
      names have at most 255 bytes, its values are shorter than 4 GB and its size does not look like zero
      in 32 bits. */
  lemma DictRoundTripIff(d: Table, ps: seq<Pair>)
    requires Lists(ps, d) && forall k :: k in d ==> Clean(k) && Clean(d[k])
    ensures UnpackDict(PackDict(ps)) == Some(d) <==> Fits(d) && (|d| == 0 || |d| % WORD != 0)
  {
    AsManyPairs(ps, d.Keys);
    var frame := PackDict(ps);
    ValueOfNumber(|ps|, PackPairs(ps));
    assert frame[4..] == PackPairs(ps);
    ScanKeepsFit(frame, 4, map[]);
    if |d| == 0 {
      assert d == map[];
    } else if Fits(d) {
      ScanReadsAll(frame, 4, ps, map[], d);
    }
  }

  // ----- Any frame at all -----

  /** The whole pairs the scan comes upon, in order. */
  function Entries(frame: Frame, i: nat): seq<Pair>
    requires i <= |frame|
    decreases |frame| - i
  {
    if i == |frame| then []
    else
      var r := RoundAt(frame, i);
      (if r.pair.Some? then [r.pair.value] else []) + Entries(frame, r.next)
  }

  function Found(frame: Frame): seq<Pair> {
    if |frame| < 4 || Value4(frame) == 0 then [] else Entries(frame, 4)
  }

  /** Whether the pairs can be added to the table one after the other, and what it is then. */
  function Added(table: Table, ps: seq<Pair>): Option<Table>
    decreases ps
  {
    if ps == [] then Some(table)
    else if ps[0].0 in table then None
    else Added(table[ps[0].0 := ps[0].1], ps[1..])
  }

  lemma {:induction false} ScanAdds(frame: Frame, i: nat, table: Table)
    requires i <= |frame|
    ensures Scan(frame, i, table) == Added(table, Entries(frame, i))
    decreases |frame| - i
  {
    if i < |frame| {
      var r := RoundAt(frame, i);
      var rest := Entries(frame, r.next);
      if r.pair.None? {
        assert [] + rest == rest;
        ScanAdds(frame, r.next, table);
      } else {
        var p := r.pair.value;
        assert ([p] + rest)[0] == p && ([p] + rest)[1..] == rest;
        if p.0 !in table {
          ScanAdds(frame, r.next, table[p.0 := p.1]);
        }
      }
    }
  }

  /** Adding pairs one after the other succeeds if and only if no name comes twice. */
  lemma {:induction false} AddedIff(table: Table, ps: seq<Pair>, d: Table)
    ensures Added(table, ps) == Some(d) <==> LeadsTo(ps, table, d)
    decreases |ps|
  {
    if ps == [] {
      if LeadsTo(ps, table, d) {
        assert table == d;
      }
    } else {
      var p, rest := ps[0], ps[1..];
      AddedIff(table[p.0 := p.1], rest, d);
      if LeadsTo(ps, table, d) {
        LeadsOn(ps, table, d);
      } else if p.0 !in table && LeadsTo(rest, table[p.0 := p.1], d) {
        LeadsBack(ps, table, d);
        assert false;
      }
    }
  }

  lemma LeadsBack(ps: seq<Pair>, table: Table, d: Table)
    requires ps != [] && ps[0].0 !in table && LeadsTo(ps[1..], table[ps[0].0 := ps[0].1], d)
    ensures LeadsTo(ps, table, d)
  {
    var p, rest := ps[0], ps[1..];
    var more := table[p.0 := p.1];
    assert p.0 in more && d[p.0] == p.1;
    forall i | 0 <= i < |ps|
      ensures ps[i].0 !in table && ps[i].0 in d && d[ps[i].0] == ps[i].1 && (i > 0 ==> ps[i].0 != p.0)
    {
      if i > 0 {
        assert ps[i] == rest[i - 1];
      }
    }
    forall i, j | 0 <= i < j < |ps|
      ensures ps[i].0 != ps[j].0
    {
      if i > 0 {
        assert ps[i] == rest[i - 1] && ps[j] == rest[j - 1];
      }
    }
    forall k | k in d && k !in table
      ensures exists i :: 0 <= i < |ps| && ps[i].0 == k
    {
      if k == p.0 {
        assert ps[0].0 == k;
      } else {
        var i :| 0 <= i < |rest| && rest[i].0 == k;
        assert ps[i + 1].0 == k;
      }
    }
  }

  /** Every frame is accepted, malformed or not, as the table of the complete pairs the scan comes upon,
      unless a name comes twice among them. */
  lemma UnpackedIff(frame: Frame, d: Table)
    ensures UnpackDict(frame) == Some(d) <==> Lists(Found(frame), d)
  {
    if |frame| < 4 || Value4(frame) == 0 {
      if Lists([], d) {
        assert d == map[];
      }
    } else {
      ScanAdds(frame, 4, map[]);
      AddedIff(map[], Entries(frame, 4), d);
    }
  }

  lemma Reattach(ps: seq<Pair>, after: seq<Pair>)
    requires ps != []
    ensures [ps[0]] + (ps[1..] + after) == ps + after
  {
  }

  lemma FirstPair(ps: seq<Pair>, damage: Frame)
    requires ps != []
    ensures PackPairs(ps) + damage == PackPair(ps[0]) + (PackPairs(ps[1..]) + damage)
  {
    assert (PackPair(ps[0]) + PackPairs(ps[1..])) + damage == PackPair(ps[0]) + (PackPairs(ps[1..]) + damage);
  }

  /** Whatever damage follows them, the pairs before it are read. */
  lemma {:induction false} PairsBeforeDamage(frame: Frame, i: nat, ps: seq<Pair>, damage: Frame)
    requires i <= |frame| && frame[i..] == PackPairs(ps) + damage
    requires forall j :: 0 <= j < |ps| ==> FitsPair(ps[j].0, ps[j].1) && Clean(ps[j].0) && Clean(ps[j].1)
    ensures |damage| <= |frame| && Entries(frame, i) == ps + Entries(frame, |frame| - |damage|)
    decreases |ps|
  {
    if ps == [] {
      assert PackPairs(ps) + damage == damage && |frame[i..]| == |frame| - i;
      assert ps + Entries(frame, i) == Entries(frame, i);
    } else {
      var p, rest := ps[0], PackPairs(ps[1..]) + damage;
      FirstPair(ps, damage);
      RoundReadsPair(frame, i, p, rest);
      PairsBeforeDamage(frame, RoundAt(frame, i).next, ps[1..], damage);
      Reattach(ps, Entries(frame, |frame| - |damage|));
    }
  }

  /** One stray byte after the count: the list is refused, the dictionary comes out empty. */
  lemma StrayByte(x: Byte)
    requires x > 0
    ensures UnpackList([0, 0, 0, 1, x]) == None && UnpackDict([0, 0, 0, 1, x]) == Some(map[])
  {
    var frame: Frame := [0, 0, 0, 1, x];
    assert frame[4..] == [x] && Value4(frame) == 1;
    assert Scan(frame, 5, map[]) == Some(map[]);
  }

  // ----- The loops -----

  lemma PackFirstPair(ps: seq<Pair>, i: nat)
    requires 0 < i <= |ps|
    ensures PackPairs(ps[..i]) == PackPair(ps[0]) + PackPairs(ps[1..][..i - 1])
  {
    assert ps[..i][0] == ps[0] && ps[..i][1..] == ps[1..][..i - 1];
  }

  lemma {:induction false} PackPairsSplit(ps: seq<Pair>, i: nat)
    requires i <= |ps|
    ensures PackPairs(ps) == PackPairs(ps[..i]) + PackPairs(ps[i..])
  {
    if i == 0 {
      assert ps[..0] == [] && ps[0..] == ps && [] + PackPairs(ps) == PackPairs(ps);
    } else {
      PackPairsSplit(ps[1..], i - 1);
      PackFirstPair(ps, i);
      assert ps[i..] == ps[1..][i - 1..];
      Associate(PackPair(ps[0]), PackPairs(ps[1..][..i - 1]), PackPairs(ps[i..]));
    }
  }

  lemma PackOnePair(p: Pair)
    ensures PackPairs([p]) == PackPair(p)
  {
    assert [p][1..] == [] && PackPairs([p][1..]) == [] && PackPair(p) + [] == PackPair(p);
  }

  lemma PackPairsAppend(ps: seq<Pair>, i: nat)
    requires i < |ps|
    ensures PackPairs(ps[..i + 1]) == PackPairs(ps[..i]) + PackPair(ps[i])
  {
    PackPairsSplit(ps[..i + 1], i);
    assert ps[..i + 1][..i] == ps[..i] && ps[..i + 1][i..] == [ps[i]];
    PackOnePair(ps[i]);
  }

  /** The count and the first i pairs. */
  function Header(ps: seq<Pair>, i: nat): Frame
    requires i <= |ps|
  {
    Number4(|ps|) + PackPairs(ps[..i])
  }

  lemma PackedSoFar(ps: seq<Pair>, i: nat)
    requires i < |ps|
    ensures Header(ps, i + 1) == Header(ps, i) + PackPair(ps[i]) && |Header(ps, i + 1)| <= |PackDict(ps)|
  {
    PackPairsSplit(ps, i + 1);
    PackPairsAppend(ps, i);
  }

  method PackedSize(ps: seq<Pair>) returns (size: nat)
    ensures size == |PackDict(ps)|
  {
    size := 4;
    for i := 0 to |ps|
      invariant size == 4 + |PackPairs(ps[..i])|
    {
      PackPairsAppend(ps, i);
      size := size + 1 + |ps[i].0| + 4 + |ps[i].1|;
    }
    assert ps[..|ps|] == ps;
  }

  method PutPair(frame: array<Byte>, needle: nat, p: Pair) returns (next: nat)
    requires needle + |PackPair(p)| <= frame.Length
    modifies frame
    ensures next == needle + |PackPair(p)| && frame[..next] == old(frame[..needle]) + PackPair(p)
  {
    MemCpy(frame, needle, [|p.0| % 256]);
    MemCpy(frame, needle + 1, p.0);
    next := PutLong(frame, needle + 1 + |p.0|, p.1);
  }

  /** zhashx_pack, on the pairs as the buckets list them. */
  method PackDictFrame(ps: seq<Pair>) returns (frame: array<Byte>)
    ensures fresh(frame) && frame[..] == PackDict(ps)
  {
    var size := PackedSize(ps);
    frame := new Byte[size](_ => 0);
    MemCpy(frame, 0, Number4(|ps|));
    var needle := 4;
    for i := 0 to |ps|
      invariant frame.Length == |PackDict(ps)| && needle == |Header(ps, i)| <= frame.Length
      invariant frame[..needle] == Header(ps, i)
    {
      PackedSoFar(ps, i);
      needle := PutPair(frame, needle, ps[i]);
    }
    assert ps[..|ps|] == ps;
  }

  /** The body of the loop of zhashx_unpack, up to the insertion. */
  method ReadRound(frame: Frame, start: nat) returns (pair: Option<Pair>, needle: nat)
    requires start < |frame|
    ensures Round(pair, needle) == RoundAt(frame, start)
  {
    var keySize := frame[start];
    pair, needle := None, start + 1;
    if needle + keySize <= |frame| {
      var key := CString(frame[needle..needle + keySize]);
      needle := needle + keySize;
      if needle + 4 <= |frame| {
        var valueSize := Value4(frame[needle..]);
        needle := needle + 4;
        if needle + valueSize <= |frame| {
          pair := Some((key, CString(frame[needle..needle + valueSize])));
          needle := needle + valueSize;
        }
      }
    }
  }

  /** zhashx_unpack */
  method UnpackDictFrame(frame: Frame) returns (r: Option<Table>)
    ensures r == UnpackDict(frame)
  {
    var table: Table := map[];
    if |frame| < 4 {
      return Some(table);
    }
    var count, needle := Value4(frame), 4;
    while count != 0 && needle < |frame|
      invariant 4 <= needle <= |frame|
      invariant if count == 0 then table == map[] else UnpackDict(frame) == Scan(frame, needle, table)
      decreases |frame| - needle
    {
      var pair;
      pair, needle := ReadRound(frame, needle);
      if pair.Some? {
        if pair.value.0 in table {
          return None;
        }
        table := table[pair.value.0 := pair.value.1];
      }
    }
    return Some(table);
  }
}
