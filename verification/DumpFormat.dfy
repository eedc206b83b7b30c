/** The records of a dump file: how they are written as bytes, and how they are read back. */
module DumpFormat {
  import opened Words
  import opened Options

  datatype Record =
    | Update(hidden: bool, offset: Word32, data: seq<Byte>)
    | Flushed(hidden: bool)
    | Command(op: Word32, words: seq<Word32>)
    | SetVi(reg: Word32, value: Word32)
    | EndFrame
    | SignalComplete
    | Eof

  predicate RecordOk(r: Record) {
    (r.Update? ==> |r.data| < TWO_32) && (r.Command? ==> |r.words| < TWO_32)
  }

  /** A 32-bit word, low byte first. */
  function Le32(x: Word32): (b: seq<Byte>)
    ensures |b| == 4
  {
    [x % 0x100, x / 0x100 % 0x100, x / 0x1_0000 % 0x100, x / 0x100_0000]
  }

  function FromLe32(b: seq<Byte>): Word32
    requires |b| >= 4
  {
    var b0: int, b1: int, b2: int, b3: int := b[0], b[1], b[2], b[3];
    b0 + 0x100 * b1 + 0x1_0000 * b2 + 0x100_0000 * b3
  }

  lemma Le32RoundTrip(x: Word32, rest: seq<Byte>)
    ensures FromLe32(Le32(x) + rest) == x && (Le32(x) + rest)[4..] == rest
  {
    Digits(x);
  }

  lemma Digits(x: Word32)
    ensures x % 0x100 + 0x100 * (x / 0x100 % 0x100) + 0x1_0000 * (x / 0x1_0000 % 0x100) +
            0x100_0000 * (x / 0x100_0000) == x
  {
    assert x / 0x1_0000 == x / 0x100 / 0x100;
    assert x / 0x100_0000 == x / 0x1_0000 / 0x100;
  }

  function Le32All(ws: seq<Word32>): (b: seq<Byte>)
    ensures |b| == 4 * |ws|
  {
    if ws == [] then [] else Le32(ws[0]) + Le32All(ws[1..])
  }

  function FromLe32All(b: seq<Byte>, n: nat): seq<Word32>
    requires |b| >= 4 * n
    decreases n
  {
    if n == 0 then [] else [FromLe32(b)] + FromLe32All(b[4..], n - 1)
  }

  lemma {:induction false} Le32AllRoundTrip(ws: seq<Word32>, rest: seq<Byte>)
    ensures FromLe32All(Le32All(ws) + rest, |ws|) == ws
    ensures (Le32All(ws) + rest)[4 * |ws|..] == rest
  {
    if ws != [] {
      Le32AllRoundTrip(ws[1..], rest);
      var tail := Le32All(ws[1..]) + rest;
      assert Le32All(ws) + rest == Le32(ws[0]) + tail;
      Le32RoundTrip(ws[0], tail);
    }
  }

  function Tag(r: Record): Word32 {
    match r
    case Update(hidden, _, _) => if hidden then 8 else 1
    case Command(_, _) => 2
    case SetVi(_, _) => 3
    case EndFrame => 4
    case SignalComplete => 5
    case Eof => 6
    case Flushed(hidden) => if hidden then 9 else 7
  }

  function Body(r: Record): seq<Byte>
    requires RecordOk(r)
  {
    match r
    case Update(_, offset, data) => Le32(offset) + (Le32(|data|) + data)
    case Command(op, words) => Le32(op) + (Le32(|words|) + Le32All(words))
    case SetVi(reg, value) => Le32(reg) + Le32(value)
    case _ => []
  }

  function Encode(r: Record): seq<Byte>
    requires RecordOk(r)
  {
    Le32(Tag(r)) + Body(r)
  }

  /** The first record of a byte stream and what follows it; None for anything else. */
  function Decode(b: seq<Byte>): (r: Option<(Record, seq<Byte>)>)
    ensures r.Some? ==> |r.value.1| < |b|
  {
    if |b| < 4 then None else DecodeBody(FromLe32(b), b[4..])
  }

  function DecodeBody(tag: Word32, b: seq<Byte>): (r: Option<(Record, seq<Byte>)>)
    ensures r.Some? ==> |r.value.1| <= |b|
  {
    match tag
    case 1 => DecodeUpdate(false, b)
    case 8 => DecodeUpdate(true, b)
    case 2 => DecodeCommand(b)
    case 3 => DecodeSetVi(b)
    case 4 => Some((EndFrame, b))
    case 5 => Some((SignalComplete, b))
    case 6 => Some((Eof, b))
    case 7 => Some((Flushed(false), b))
    case 9 => Some((Flushed(true), b))
    case _ => None
  }

  function DecodeSetVi(b: seq<Byte>): (r: Option<(Record, seq<Byte>)>)
    ensures r.Some? ==> |r.value.1| <= |b|
  {
    if |b| < 8 then None else Some((SetVi(FromLe32(b), FromLe32(b[4..])), b[8..]))
  }

  function DecodeUpdate(hidden: bool, b: seq<Byte>): (r: Option<(Record, seq<Byte>)>)
    ensures r.Some? ==> |r.value.1| <= |b|
  {
    if |b| < 8 then None
    else
      var n, data := FromLe32(b[4..]), b[4..][4..];
      if |data| < n then None else Some((Update(hidden, FromLe32(b), data[..n]), data[n..]))
  }

  function DecodeCommand(b: seq<Byte>): (r: Option<(Record, seq<Byte>)>)
    ensures r.Some? ==> |r.value.1| <= |b|
  {
    if |b| < 8 then None
    else
      var n, data := FromLe32(b[4..]), b[4..][4..];
      if |data| < 4 * n then None else Some((Command(FromLe32(b), FromLe32All(data, n)), data[4 * n..]))
  }

  /** Reading back what was written gives the record, and leaves what was written after it. */
  lemma DecodeEncode(r: Record, rest: seq<Byte>)
    requires RecordOk(r)
    ensures Decode(Encode(r) + rest) == Some((r, rest))
  {
    hide Le32, FromLe32, DecodeUpdate, DecodeCommand, DecodeSetVi;
    assert Encode(r) + rest == Le32(Tag(r)) + (Body(r) + rest);
    Le32RoundTrip(Tag(r), Body(r) + rest);
    match r
    case Update(hidden, offset, data) => DecodeUpdateOk(hidden, offset, data, rest);
    case Command(op, words) => DecodeCommandOk(op, words, rest);
    case SetVi(reg, value) => DecodeSetViOk(reg, value, rest);
    case _ =>
      assert Body(r) + rest == rest;
  }

  lemma DecodeSetViOk(reg: Word32, value: Word32, rest: seq<Byte>)
    ensures DecodeSetVi(Body(SetVi(reg, value)) + rest) == Some((SetVi(reg, value), rest))
  {
    hide Le32, FromLe32;
    var b := Body(SetVi(reg, value)) + rest;
    assert b == Le32(reg) + (Le32(value) + rest);
    Le32RoundTrip(reg, Le32(value) + rest);
    Le32RoundTrip(value, rest);
    assert b[8..] == b[4..][4..];
  }

  lemma DecodeUpdateOk(hidden: bool, offset: Word32, data: seq<Byte>, rest: seq<Byte>)
    requires |data| < TWO_32
    ensures DecodeUpdate(hidden, Body(Update(hidden, offset, data)) + rest) ==
            Some((Update(hidden, offset, data), rest))
  {
    hide Le32, FromLe32;
    var tail := data + rest;
    assert Body(Update(hidden, offset, data)) + rest == Le32(offset) + (Le32(|data|) + tail);
    Le32RoundTrip(offset, Le32(|data|) + tail);
    Le32RoundTrip(|data|, tail);
  }

  lemma DecodeCommandOk(op: Word32, words: seq<Word32>, rest: seq<Byte>)
    requires |words| < TWO_32
    ensures DecodeCommand(Body(Command(op, words)) + rest) == Some((Command(op, words), rest))
  {
    hide Le32, FromLe32, FromLe32All, Le32All;
    var tail := Le32All(words) + rest;
    assert Body(Command(op, words)) + rest == Le32(op) + (Le32(|words|) + tail);
    Le32RoundTrip(op, Le32(|words|) + tail);
    Le32RoundTrip(|words|, tail);
    Le32AllRoundTrip(words, rest);
  }

  predicate AllOk(rs: seq<Record>) { forall k :: 0 <= k < |rs| ==> RecordOk(rs[k]) }

  function EncodeAll(rs: seq<Record>): seq<Byte>
    requires AllOk(rs)
  {
    if rs == [] then [] else Encode(rs[0]) + EncodeAll(rs[1..])
  }

  /** The records of a stream, up to where it cannot be read on. */
  function DecodeAll(b: seq<Byte>): seq<Record>
    decreases |b|
  {
    var d := Decode(b);
    if d.None? then [] else [d.value.0] + DecodeAll(d.value.1)
  }

  /** A dump is read back as the records that were written. */
  lemma {:induction false} DecodeAllEncodeAll(rs: seq<Record>)
    requires AllOk(rs)
    ensures DecodeAll(EncodeAll(rs)) == rs
  {
    hide Decode, Encode;
    if rs == [] {
      NothingToDecode();
    } else {
      DecodeEncode(rs[0], EncodeAll(rs[1..]));
      DecodeAllEncodeAll(rs[1..]);
    }
  }

  lemma NothingToDecode()
    ensures Decode([]).None?
  {
  }

  lemma {:induction false} EncodeAllConcat(a: seq<Record>, b: seq<Record>)
    requires AllOk(a) && AllOk(b)
    ensures AllOk(a + b) && EncodeAll(a + b) == EncodeAll(a) + EncodeAll(b)
  {
    hide Encode;
    if a == [] {
      assert a + b == b;
    } else {
      assert (a + b)[0] == a[0] && (a + b)[1..] == a[1..] + b;
      EncodeAllConcat(a[1..], b);
      assert Encode(a[0]) + (EncodeAll(a[1..]) + EncodeAll(b)) == Encode(a[0]) + EncodeAll(a[1..]) + EncodeAll(b);
    }
  }

  // ---- the file -------------------------------------------------------------------------------

  /** "RDPDUMP2" */
  const MAGIC: seq<Byte> := [0x52, 0x44, 0x50, 0x44, 0x55, 0x4D, 0x50, 0x32]

  function Header(dramSize: Word32, hiddenSize: Word32): seq<Byte> { MAGIC + (Le32(dramSize) + Le32(hiddenSize)) }

  datatype File = File(dramSize: Word32, hiddenSize: Word32, records: seq<Record>)

  function DecodeFile(b: seq<Byte>): Option<File> {
    if |b| < 16 || b[..8] != MAGIC then None
    else
      var sizes := b[8..];
      Some(File(FromLe32(sizes), FromLe32(sizes[4..]), DecodeAll(sizes[4..][4..])))
  }

  lemma DecodeFileOk(f: File)
    requires AllOk(f.records)
    ensures DecodeFile(Header(f.dramSize, f.hiddenSize) + EncodeAll(f.records)) == Some(f)
  {
    hide Le32, FromLe32, DecodeAll, EncodeAll;
    var body := EncodeAll(f.records);
    var all := Header(f.dramSize, f.hiddenSize) + body;
    assert all[..8] == MAGIC;
    assert all[8..] == Le32(f.dramSize) + (Le32(f.hiddenSize) + body);
    Le32RoundTrip(f.dramSize, Le32(f.hiddenSize) + body);
    Le32RoundTrip(f.hiddenSize, body);
    DecodeAllEncodeAll(f.records);
  }

  // ---- the bytes --------------------------------------------------------------------------------

  /** The number in four bytes, the first one lowest. */
  function WordAt(b: seq<Byte>, i: nat): int
    requires i + 4 <= |b|
  {
    var b0: int, b1: int, b2: int, b3: int := b[i], b[i + 1], b[i + 2], b[i + 3];
    b0 + 0x100 * b1 + 0x1_0000 * b2 + 0x100_0000 * b3
  }

  predicate Tagged(b: seq<Byte>, tag: int, n: nat) { |b| == n && n >= 4 && WordAt(b, 0) == tag }

  /** A record as bytes: its number, then its words, then its data. */
  lemma WireFormat(r: Record)
    requires RecordOk(r)
    ensures var b := Encode(r);
      match r
      case Update(hidden, offset, data) =>
        && Tagged(b, if hidden then 8 else 1, 12 + |data|)
        && WordAt(b, 4) == offset && WordAt(b, 8) == |data| && b[12..] == data
      case Command(op, words) =>
        && Tagged(b, 2, 12 + 4 * |words|) && WordAt(b, 4) == op && WordAt(b, 8) == |words|
        && forall k :: 0 <= k < |words| ==> WordAt(b, 12 + 4 * k) == words[k]
      case SetVi(reg, value) => Tagged(b, 3, 12) && WordAt(b, 4) == reg && WordAt(b, 8) == value
      case EndFrame => Tagged(b, 4, 4)
      case SignalComplete => Tagged(b, 5, 4)
      case Eof => Tagged(b, 6, 4)
      case Flushed(hidden) => Tagged(b, if hidden then 9 else 7, 4)
  {
    hide Le32, WordAt, Le32All;
    var b, tag := Encode(r), Le32(Tag(r));
    Placed(Tag(r), [], Body(r));
    assert [] + (tag + Body(r)) == b;
    match r
    case Update(_, offset, data) => ThreeWords(tag, offset, |data|, data);
    case Command(op, words) =>
      ThreeWords(tag, op, |words|, Le32All(words));
      var front := tag + (Le32(op) + Le32(|words|));
      assert b == front + Le32All(words);
      forall k | 0 <= k < |words| ensures WordAt(b, 12 + 4 * k) == words[k] {
        WordsPlaced(front, words, k);
      }
    case SetVi(reg, value) =>
      ThreeWords(tag, reg, value, []);
      assert b == tag + (Le32(reg) + (Le32(value) + []));
    case _ =>
  }

  lemma Placed(x: Word32, a: seq<Byte>, c: seq<Byte>)
    ensures WordAt(a + (Le32(x) + c), |a|) == x
  {
    Digits(x);
    var b := a + (Le32(x) + c);
    assert b[|a|] == Le32(x)[0] && b[|a| + 1] == Le32(x)[1] && b[|a| + 2] == Le32(x)[2] && b[|a| + 3] == Le32(x)[3];
  }

  lemma ThreeWords(tag: seq<Byte>, x: Word32, y: Word32, c: seq<Byte>)
    requires |tag| == 4
    ensures var b := tag + (Le32(x) + (Le32(y) + c)); WordAt(b, 4) == x && WordAt(b, 8) == y && b[12..] == c
  {
    hide Le32, WordAt;
    Placed(x, tag, Le32(y) + c);
    Placed(y, tag + Le32(x), c);
    assert tag + Le32(x) + (Le32(y) + c) == tag + (Le32(x) + (Le32(y) + c));
  }

  lemma {:induction false} WordsPlaced(front: seq<Byte>, words: seq<Word32>, k: nat)
    requires k < |words|
    ensures WordAt(front + Le32All(words), |front| + 4 * k) == words[k]
    decreases k
  {
    hide Le32, WordAt;
    var rest := Le32All(words[1..]);
    if k == 0 {
      Placed(words[0], front, rest);
    } else {
      WordsPlaced(front + Le32(words[0]), words[1..], k - 1);
      assert front + Le32(words[0]) + rest == front + Le32All(words);
    }
  }

  /** The file begins with its name and version and the sizes of both memories. */
  lemma HeaderFormat(dramSize: Word32, hiddenSize: Word32)
    ensures var b := Header(dramSize, hiddenSize);
      && |b| == 16 && (forall k :: 0 <= k < 8 ==> b[k] == "RDPDUMP2"[k] as int)
      && WordAt(b, 8) == dramSize && WordAt(b, 12) == hiddenSize
  {
    hide Le32, WordAt;
    var b := Header(dramSize, hiddenSize);
    Placed(dramSize, MAGIC, Le32(hiddenSize));
    Placed(hiddenSize, MAGIC + Le32(dramSize), []);
    assert MAGIC + Le32(dramSize) + (Le32(hiddenSize) + []) == b;
  }
}
