/** The packed form of lists and dictionaries of strings (src/zlistx.c, src/zhashx.c). */
module Wire {
  import opened Messages
  import opened Wrappers

  const WORD: nat := 0x1_0000_0000

  /** number-4: the low 32 bits in network order. */
  function Number4(v: nat): (f: Frame)
    ensures |f| == 4
  {
    [v / 256 / 256 / 256 % 256, v / 256 / 256 % 256, v / 256 % 256, v % 256]
  }

  function Value4(f: Frame): (v: nat)
    requires |f| >= 4
    ensures v < WORD
  {
    0x100_0000 * (f[0] as nat) + 0x1_0000 * (f[1] as nat) + 256 * (f[2] as nat) + f[3]
  }

  lemma ValueOfNumber(v: nat, rest: Frame)
    ensures Value4(Number4(v) + rest) == v % WORD
  {
    FourDigits(v);
    var f := Number4(v) + rest;
    assert f[0] == Number4(v)[0] && f[1] == Number4(v)[1] && f[2] == Number4(v)[2] && f[3] == Number4(v)[3];
    RemainderIs(v, v / 256 / 256 / 256 / 256, Value4(f));
  }

  lemma FourDigits(v: nat)
    ensures
      v == WORD * (v / 256 / 256 / 256 / 256) +
        0x100_0000 * (v / 256 / 256 / 256 % 256) + 0x1_0000 * (v / 256 / 256 % 256) + 256 * (v / 256 % 256) + v % 256
  {
    var a := v / 256;
    var b := a / 256;
    var c := b / 256;
    LastDigit(v);
    LastDigit(a);
    LastDigit(b);
    LastDigit(c);
  }

  lemma LastDigit(v: nat)
    ensures v == 256 * (v / 256) + v % 256
  {
  }

  lemma RemainderIs(v: nat, q: nat, r: nat)
    requires v == WORD * q + r && r < WORD
    ensures v % WORD == r
  {
  }

  lemma NumberOfValue(f: Frame)
    requires |f| >= 4
    ensures Number4(Value4(f)) == f[..4]
  {
    var v := Value4(f);
    assert v / 256 == 0x1_0000 * (f[0] as nat) + 256 * (f[1] as nat) + f[2];
    assert v / 256 / 256 == 256 * (f[0] as nat) + f[1];
  }

  ghost predicate Clean(f: Frame) {
    forall i :: 0 <= i < |f| ==> f[i] != 0
  }

  // ----- Lists -----

  function PackItems(l: seq<Frame>): Frame {
    if l == [] then [] else Number4(|l[0]|) + l[0] + PackItems(l[1..])
  }

  function PackList(l: seq<Frame>): Frame {
    Number4(|l|) + PackItems(l)
  }

  /** The strings in the body of a packed list, before they are read as C strings. */
  function ParseItems(b: Frame): Option<seq<Frame>> {
    if b == [] then Some([])
    else if |b| < 4 || |b| - 4 < Value4(b) then None
    else
      var n := Value4(b);
      match ParseItems(b[4 + n..])
      case None => None
      case Some(l) => Some([b[4..4 + n]] + l)
  }

  function CStrings(l: seq<Frame>): seq<Frame> {
    if l == [] then [] else [CString(l[0])] + CStrings(l[1..])
  }

  /** The count is only compared with zero: what ends the list is the end of the frame. */
  function UnpackList(frame: Frame): Option<seq<Frame>> {
    if |frame| < 4 || Value4(frame) == 0 then Some([])
    else
      match ParseItems(frame[4..])
      case None => None
      case Some(l) => Some(CStrings(l))
  }

  ghost predicate Short(l: seq<Frame>) {
    forall i :: 0 <= i < |l| ==> |l[i]| < WORD
  }

  /** The parser accepts the packed forms and nothing else, and each as one list only. */
  lemma {:induction false} ParsesExactly(b: Frame, l: seq<Frame>)
    ensures ParseItems(b) == Some(l) <==> b == PackItems(l) && Short(l)
    decreases |b|
  {
    if ParseItems(b) == Some(l) {
      ParsedIsPacked(b, l);
    } else if b == PackItems(l) && Short(l) {
      PackedIsParsed(l);
    }
  }

  lemma PackItemsCons(s: Frame, l: seq<Frame>)
    ensures PackItems([s] + l) == Number4(|s|) + s + PackItems(l)
    ensures Short([s] + l) <==> |s| < WORD && Short(l)
  {
    var m := [s] + l;
    assert m[1..] == l;
    if |s| < WORD && Short(l) {
      assert forall i :: 0 < i < |m| ==> m[i] == l[i - 1];
    }
    if Short(m) {
      assert m[0] == s && forall i :: 0 <= i < |l| ==> l[i] == m[i + 1];
    }
  }

  /** A long string at the head of some bytes is written back as it was. */
  lemma WritesBack(b: Frame)
    requires |b| >= 4 && Value4(b) <= |b| - 4
    ensures Number4(Value4(b)) + b[4..4 + Value4(b)] + b[4 + Value4(b)..] == b
  {
    NumberOfValue(b);
    assert b[..4] + b[4..4 + Value4(b)] + b[4 + Value4(b)..] == b;
  }

  lemma {:induction false} ParsedIsPacked(b: Frame, l: seq<Frame>)
    requires ParseItems(b) == Some(l)
    ensures b == PackItems(l) && Short(l)
    decreases |b|
  {
    if b != [] {
      var n := Value4(b);
      var rest := ParseItems(b[4 + n..]).value;
      assert l == [b[4..4 + n]] + rest;
      ParsedIsPacked(b[4 + n..], rest);
      WritesBack(b);
      PackItemsCons(b[4..4 + n], rest);
    }
  }

  /** A long string is read back from the head of what it was written to. */
  lemma ReadsBack(s: Frame, rest: Frame)
    requires |s| < WORD
    ensures
      var b := Number4(|s|) + s + rest;
      |b| >= 4 && Value4(b) == |s| <= |b| - 4 && b[4..4 + |s|] == s && b[4 + |s|..] == rest
  {
    ValueOfNumber(|s|, s + rest);
    assert Number4(|s|) + (s + rest) == Number4(|s|) + s + rest;
  }

  lemma {:induction false} PackedIsParsed(l: seq<Frame>)
    requires Short(l)
    ensures ParseItems(PackItems(l)) == Some(l)
  {
    if l != [] {
      PackedIsParsed(l[1..]);
      ReadsBack(l[0], PackItems(l[1..]));
      assert l == [l[0]] + l[1..];
    }
  }

  lemma {:induction false} CStringsOfClean(l: seq<Frame>)
    requires forall i :: 0 <= i < |l| ==> Clean(l[i])
    ensures CStrings(l) == l
  {
    if l != [] {
      CStringOfClean(l[0]);
      CStringsOfClean(l[1..]);
    }
  }

  lemma {:induction false} CStringNotLonger(f: Frame)
    ensures |CString(f)| <= |f|
  {
    if f != [] {
      CStringNotLonger(f[1..]);
    }
  }

  lemma {:induction false} CStringsStayShort(l: seq<Frame>)
    requires Short(l)
    ensures Short(CStrings(l))
  {
    if l != [] {
      CStringNotLonger(l[0]);
      CStringsStayShort(l[1..]);
    }
  }

  /** Unpacking what was packed gives the same strings in the same order, if and only if they are
      shorter than 4 GB each and their number does not look like zero in 32 bits. */
  lemma ListRoundTripIff(l: seq<Frame>)
    requires forall i :: 0 <= i < |l| ==> Clean(l[i])
    ensures UnpackList(PackList(l)) == Some(l) <==> Short(l) && (l == [] || |l| % WORD != 0)
  {
    var frame := PackList(l);
    ValueOfNumber(|l|, PackItems(l));
    assert frame[4..] == PackItems(l);
    if Short(l) {
      PackedIsParsed(l);
      CStringsOfClean(l);
    } else if |l| % WORD != 0 && UnpackList(frame) == Some(l) {
      var raw := ParseItems(PackItems(l)).value;
      ParsedIsPacked(PackItems(l), raw);
      CStringsStayShort(raw);
      assert false;
    }
  }

  // ----- The loops -----

  lemma SliceOfSlice(f: Frame, i: nat, p: nat, q: nat)
    requires p <= q && i + q <= |f|
    ensures f[i..][p..q] == f[i + p..i + q] && f[i..][q..] == f[i + q..]
  {
  }

  method MemCpy(frame: array<Byte>, needle: nat, bytes: Frame)
    requires needle + |bytes| <= frame.Length
    modifies frame
    ensures frame[..needle + |bytes|] == old(frame[..needle]) + bytes
  {
    forall i | 0 <= i < |bytes| {
      frame[needle + i] := bytes[i];
    }
  }

  lemma TailOfPrefix(l: seq<Frame>, i: nat)
    requires 0 < i <= |l|
    ensures l[..i][0] == l[0] && l[..i][1..] == l[1..][..i - 1]
  {
  }

  lemma PackFirst(l: seq<Frame>, i: nat)
    requires 0 < i <= |l|
    ensures PackItems(l[..i]) == Number4(|l[0]|) + l[0] + PackItems(l[1..][..i - 1])
  {
    TailOfPrefix(l, i);
  }

  lemma PackOne(s: Frame)
    ensures PackItems([s]) == Number4(|s|) + s
  {
    assert [s][1..] == [] && PackItems([s][1..]) == [];
    assert Number4(|s|) + s + [] == Number4(|s|) + s;
  }

  lemma Associate(a: Frame, b: Frame, c: Frame)
    ensures a + b + c == a + (b + c)
  {
  }

  lemma {:induction false} PackItemsAppend(l: seq<Frame>, i: nat)
    requires i < |l|
    ensures PackItems(l[..i + 1]) == PackItems(l[..i]) + Number4(|l[i]|) + l[i]
  {
    if i == 0 {
      assert l[..1] == [l[0]] && l[..0] == [];
      PackOne(l[0]);
      assert [] + Number4(|l[0]|) == Number4(|l[0]|);
    } else {
      PackItemsAppend(l[1..], i - 1);
      PackFirst(l, i + 1);
      PackFirst(l, i);
      var first, most := Number4(|l[0]|) + l[0], PackItems(l[1..][..i - 1]);
      Associate(first, most, Number4(|l[i]|));
      Associate(first, most + Number4(|l[i]|), l[i]);
    }
  }

  lemma {:induction false} PackItemsSplit(l: seq<Frame>, i: nat)
    requires i <= |l|
    ensures PackItems(l) == PackItems(l[..i]) + PackItems(l[i..])
  {
    if i == 0 {
      assert l[..0] == [] && l[0..] == l && [] + PackItems(l) == PackItems(l);
    } else {
      PackItemsSplit(l[1..], i - 1);
      PackFirst(l, i);
      assert l[i..] == l[1..][i - 1..];
      Associate(Number4(|l[0]|) + l[0], PackItems(l[1..][..i - 1]), PackItems(l[i..]));
    }
  }

  /** Write a long string at the needle. */
  method PutLong(frame: array<Byte>, needle: nat, s: Frame) returns (next: nat)
    requires needle + 4 + |s| <= frame.Length
    modifies frame
    ensures next == needle + 4 + |s| && frame[..next] == old(frame[..needle]) + Number4(|s|) + s
  {
    MemCpy(frame, needle, Number4(|s|));
    MemCpy(frame, needle + 4, s);
    next := needle + 4 + |s|;
  }

  method PackedSize(l: seq<Frame>) returns (size: nat)
    ensures size == |PackList(l)|
  {
    size := 4;
    for i := 0 to |l|
      invariant size == 4 + |PackItems(l[..i])|
    {
      PackItemsAppend(l, i);
      size := size + 4 + |l[i]|;
    }
    assert l[..|l|] == l;
  }

  /** The count and the first i strings. */
  function Header(l: seq<Frame>, i: nat): Frame
    requires i <= |l|
  {
    Number4(|l|) + PackItems(l[..i])
  }

  lemma PackedSoFar(l: seq<Frame>, i: nat)
    requires i < |l|
    ensures Header(l, i + 1) == Header(l, i) + Number4(|l[i]|) + l[i] && |Header(l, i + 1)| <= |PackList(l)|
  {
    PackItemsSplit(l, i + 1);
    PackItemsAppend(l, i);
  }

  /** zlistx_pack: the size first, then the strings into a frame of that size. */
  method PackListFrame(l: seq<Frame>) returns (frame: array<Byte>)
    ensures fresh(frame) && frame[..] == PackList(l)
  {
    var size := PackedSize(l);
    frame := new Byte[size](_ => 0);
    var needle := 4;
    MemCpy(frame, 0, Number4(|l|));
    for i := 0 to |l|
      invariant frame.Length == |PackList(l)| && needle == |Header(l, i)| <= frame.Length
      invariant frame[..needle] == Header(l, i)
    {
      PackedSoFar(l, i);
      needle := PutLong(frame, needle, l[i]);
    }
    assert l[..|l|] == l;
  }

  /** What the loop still has to add to the strings it has. */
  ghost predicate Unpacked(total: Option<seq<Frame>>, done: seq<Frame>, rest: Frame) {
    match ParseItems(rest)
    case None => total == None
    case Some(l) => total.Some? && total.value == done + CStrings(l)
  }

  lemma UnpackStep(total: Option<seq<Frame>>, done: seq<Frame>, frame: Frame, needle: nat, n: nat)
    requires needle + 4 + n <= |frame| && Value4(frame[needle..]) == n && Unpacked(total, done, frame[needle..])
    ensures Unpacked(total, done + [CString(frame[needle + 4..needle + 4 + n])], frame[needle + 4 + n..])
  {
    var b := frame[needle..];
    SliceOfSlice(frame, needle, 4, 4 + n);
    if total.Some? {
      var l := ParseItems(b).value;
      assert l[1..] == ParseItems(b[4 + n..]).value;
      assert done + CStrings(l) == done + [CString(l[0])] + CStrings(l[1..]);
    }
  }

  lemma UnpackFails(total: Option<seq<Frame>>, done: seq<Frame>, frame: Frame, needle: nat)
    requires needle < |frame| && Unpacked(total, done, frame[needle..])
    requires |frame| < needle + 4 || |frame| < needle + 4 + Value4(frame[needle..])
    ensures total == None
  {
  }

  lemma UnpackEnds(total: Option<seq<Frame>>, done: seq<Frame>, frame: Frame)
    requires Unpacked(total, done, frame[|frame|..])
    ensures total == Some(done)
  {
    assert frame[|frame|..] == [] && done + [] == done;
  }

  /** The body of the loop of zlistx_unpack. */
  method ReadItem(frame: Frame, start: nat, ghost total: Option<seq<Frame>>, ghost items: seq<Frame>)
    returns (item: Option<Frame>, needle: nat)
    requires start < |frame| && Unpacked(total, items, frame[start..])
    ensures item == None ==> total == None
    ensures item.Some? ==> start < needle <= |frame| && Unpacked(total, items + [item.value], frame[needle..])
  {
    item, needle := None, start;
    if |frame| < needle + 4 {
      UnpackFails(total, items, frame, start);
      return;
    }
    var length := Value4(frame[needle..]);
    needle := needle + 4;
    if |frame| < needle + length {
      UnpackFails(total, items, frame, start);
      return;
    }
    UnpackStep(total, items, frame, start, length);
    item := Some(CString(frame[needle..needle + length]));
    needle := needle + length;
  }

  /** zlistx_unpack */
  method UnpackListFrame(frame: Frame) returns (list: Option<seq<Frame>>)
    ensures list == UnpackList(frame)
  {
    var items := [];
    if |frame| < 4 {
      return Some(items);
    }
    var count, needle := Value4(frame), 4;
    if count == 0 {
      return Some(items);
    }
    ghost var total := UnpackList(frame);
    while needle < |frame|
      invariant 4 <= needle <= |frame| && Unpacked(total, items, frame[needle..])
      decreases |frame| - needle
    {
      var item, next := ReadItem(frame, needle, total, items);
      if item.None? {
        return None;
      }
      items, needle := items + [item.value], next;
    }
    UnpackEnds(total, items, frame);
    return Some(items);
  }
}
