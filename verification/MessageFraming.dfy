/**
 The framing of messages in a trace file: each message is preceded by its length as a base-128
 varint. Masks and shifts of non-negative numbers are written as remainders and quotients.
 */
module MessageFraming {
  import opened Arithmetic

  type Byte = x: int | 0 <= x < 256

  const MASK_SIZE: nat := 0x1_0000_0000
  const MAX_SIGNED: nat := 0x7fff_ffff_ffff_ffff

  // ------------------------------------------------------------------ varints

  function Varint(v: nat): (r: seq<Byte>)
    ensures r != []
  {
    if v < 128 then [v] else [128 + v % 128] + Varint(v / 128)
  }

  function Pow128(n: nat): (r: nat)
    ensures r > 0
  {
    if n == 0 then 1 else 128 * Pow128(n - 1)
  }

  /** The value returned for the bits read: 32 bits, and negative for what does not fit 63 bits. */
  function Masked(result: nat): int {
    if result > MAX_SIGNED then result % MASK_SIZE - MASK_SIZE else result % MASK_SIZE
  }

  /** A value and the bytes it took, the end of the file, or too many bytes. */
  datatype Decoded = Got(value: int, used: nat) | AtEnd | TooLong

  function Shifted(b: Byte, k: nat): nat { (b % 128) * Pow128(k) }

  /** Decoding from byte `k` on, with the value of the bytes before it. */
  function DecodeFrom(data: seq<Byte>, k: nat, result: nat): Decoded
    decreases |data| - k
  {
    if |data| <= k then AtEnd
    else
      var r := result + Shifted(data[k], k);
      if data[k] < 128 then Got(Masked(r), k + 1)
      else if 7 * (k + 1) >= 64 then TooLong
      else DecodeFrom(data, k + 1, r)
  }

  lemma {:induction false} VarintDecodes(pre: seq<Byte>, v: nat, rest: seq<Byte>, result: nat)
    requires |pre| < 10
    ensures DecodeFrom(pre + Varint(v) + rest, |pre|, result)
      == if |pre + Varint(v)| <= 10 then Got(Masked(result + v * Pow128(|pre|)), |pre + Varint(v)|) else TooLong
    decreases v
  {
    var k := |pre|;
    var data := pre + Varint(v) + rest;
    if v < 128 {
      assert data[k] == v && |pre + Varint(v)| == k + 1;
    } else {
      var b: Byte := 128 + v % 128;
      assert data[k] == b && b % 128 == v % 128;
      assert pre + Varint(v) == pre + [b] + Varint(v / 128);
      NextDigit(v, Pow128(k));
      if k + 1 < 10 {
        assert |pre + [b]| == k + 1;
        VarintDecodes(pre + [b], v / 128, rest, result + Shifted(b, k));
      }
    }
  }

  lemma NextDigit(v: nat, p: nat)
    ensures (v % 128) * p + (v / 128) * (128 * p) == v * p
  {
    var q, r := v / 128, v % 128;
    assert v == 128 * q + r;
    assert (128 * q + r) * p == (128 * q) * p + r * p;
    assert (128 * q) * p == q * (128 * p);
  }

  lemma {:induction false} VarintLength(v: nat, n: nat)
    requires n >= 1
    ensures |Varint(v)| <= n <==> v < Pow128(n)
    decreases v
  {
    if v >= 128 && n > 1 {
      VarintLength(v / 128, n - 1);
    } else if n > 1 {
      PowAtLeast(n - 1);
    }
  }

  lemma {:induction false} PowAtLeast(n: nat)
    ensures 128 * Pow128(n) >= 128
  {
    if n > 0 { PowAtLeast(n - 1); }
  }

  /** The format: byte `i` holds bits 7i to 7i + 6 of the number, and its top bit says that more bytes
      follow. */
  lemma {:induction false} VarintBytes(v: nat, i: nat)
    requires i < |Varint(v)|
    ensures Varint(v)[i] == v / Pow128(i) % 128 + if i < |Varint(v)| - 1 then 128 else 0
    decreases v
  {
    if i > 0 {
      VarintBytes(v / 128, i - 1);
      QuotientTwice(v, 128, Pow128(i - 1));
    }
  }

  lemma TenBytes()
    ensures Pow128(10) == 0x40_0000_0000_0000_0000
  {
    assert Pow128(2) == 16384;
    assert Pow128(4) == 268435456;
    assert Pow128(6) == 4398046511104;
    assert Pow128(8) == 72057594037927936;
  }

  /** Decoding the encoding of any number: the number itself exactly when it is below 2^32, whatever
      follows it; the bytes used are those written. */
  lemma VarintRoundTrip(v: nat, rest: seq<Byte>)
    ensures DecodeFrom(Varint(v) + rest, 0, 0) == if v < Pow128(10) then Got(Masked(v), |Varint(v)|) else TooLong
    ensures DecodeFrom(Varint(v) + rest, 0, 0) == Got(v, |Varint(v)|) <==> v < MASK_SIZE
  {
    VarintDecodes([], v, rest, 0);
    assert [] + Varint(v) + rest == Varint(v) + rest && [] + Varint(v) == Varint(v);
    assert Pow128(0) == 1;
    VarintLength(v, 10);
    TenBytes();
  }

  // ------------------------------------------------------------------ messages

  type Message = seq<Byte>

  /** The bytes of a file with some messages. */
  function Frames(ms: seq<Message>): seq<Byte> {
    if ms == [] then [] else Varint(|ms[0]|) + ms[0] + Frames(ms[1..])
  }

  /** The first `n` bytes or as many as there are; all of them when `n` is negative. */
  function Take(data: seq<Byte>, n: int): (r: seq<Byte>)
    ensures |r| <= |data| && r == data[..|r|]
  {
    if 0 <= n <= |data| then data[..n] else data
  }

  datatype Read = Message(bytes: Message, rest: seq<Byte>) | NoMessage

  /** `decodeMessage`, as a function of what is left of the file. */
  function DecodeOne(data: seq<Byte>): (r: Read)
    ensures r.Message? ==> |r.rest| < |data|
  {
    var d := DecodeFrom(data, 0, 0);
    if d.Got? && d.value != 0 then
      UsedBounds(data, 0, 0);
      var body := Take(data[d.used..], d.value);
      Message(body, data[d.used..][|body|..])
    else NoMessage
  }

  lemma {:induction false} UsedBounds(data: seq<Byte>, k: nat, result: nat)
    ensures var d := DecodeFrom(data, k, result); d.Got? ==> k < d.used <= |data|
    decreases |data| - k
  {
    if k < |data| { UsedBounds(data, k + 1, result + Shifted(data[k], k)); }
  }

  /** Reading messages until there is none. */
  function DecodeAll(data: seq<Byte>): seq<Message>
    decreases |data|
  {
    var r := DecodeOne(data);
    if r.Message? then [r.bytes] + DecodeAll(r.rest) else []
  }

  /** A message can be framed: it is not empty and its length fits 32 bits. */
  predicate Framed(m: Message) { 0 < |m| < MASK_SIZE }

  lemma AfterHeader(header: seq<Byte>, tail: seq<Byte>, value: int)
    requires DecodeFrom(header + tail, 0, 0) == Got(value, |header|) && value != 0
    ensures DecodeOne(header + tail) == Message(Take(tail, value), tail[|Take(tail, value)|..])
  {
    assert (header + tail)[|header|..] == tail;
  }

  lemma DecodeFramed(m: Message, rest: seq<Byte>)
    requires Framed(m)
    ensures DecodeOne(Varint(|m|) + m + rest) == Message(m, rest)
  {
    VarintRoundTrip(|m|, m + rest);
    AfterHeader(Varint(|m|), m + rest, |m|);
    TakeFirst(m, rest);
    Reassociate(Varint(|m|), m, rest);
  }

  lemma TakeFirst(m: Message, rest: seq<Byte>)
    ensures Take(m + rest, |m|) == m && (m + rest)[|m|..] == rest
  {
  }

  lemma Reassociate(a: seq<Byte>, b: seq<Byte>, c: seq<Byte>)
    ensures a + b + c == a + (b + c)
  {
  }

  /** A length that is decoded as a negative number, with which the rest of the file is read. */
  predicate Overlong(m: Message) { MAX_SIGNED < |m| < Pow128(10) }

  lemma DecodeUnframed(m: Message, rest: seq<Byte>)
    requires !Framed(m) && !Overlong(m)
    ensures var r := DecodeOne(Varint(|m|) + m + rest); r.Message? ==> |r.bytes| < |m|
  {
    VarintRoundTrip(|m|, m + rest);
    TenBytes();
    Reassociate(Varint(|m|), m, rest);
    if |m| < Pow128(10) && Masked(|m|) != 0 {
      AfterHeader(Varint(|m|), m + rest, Masked(|m|));
    }
  }

  lemma DecodeOverlong(m: Message, rest: seq<Byte>)
    requires Overlong(m)
    ensures DecodeOne(Varint(|m|) + m + rest) == Message(m + rest, [])
  {
    VarintRoundTrip(|m|, m + rest);
    Reassociate(Varint(|m|), m, rest);
    AfterHeader(Varint(|m|), m + rest, Masked(|m|));
  }

  /** Every message can be framed, except that the last one may be so long that the rest of the file
      is read for it. */
  ghost predicate Survives(ms: seq<Message>) {
    forall i | 0 <= i < |ms| :: Framed(ms[i]) || (i == |ms| - 1 && Overlong(ms[i]))
  }

  /** A file gives back the messages written to it exactly when each is non-empty and shorter than
      2^32 bytes, but for a last one of 2^63 bytes or more that the rest of the file is read for. */
  lemma {:induction false} FramingRoundTrip(ms: seq<Message>)
    ensures DecodeAll(Frames(ms)) == ms <==> Survives(ms)
  {
    if ms != [] {
      var m, rest := ms[0], Frames(ms[1..]);
      if Framed(m) {
        DecodeFramed(m, rest);
        FramingRoundTrip(ms[1..]);
        AllDecoded(Frames(ms), m, rest);
        SplitHead(ms, DecodeAll(rest));
      } else if Overlong(m) {
        OverlongFirst(ms, rest);
      } else {
        DecodeUnframed(m, rest);
        NotDecoded(Frames(ms), m, ms);
      }
    } else {
      assert DecodeOne([]).NoMessage?;
    }
  }

  lemma OverlongFirst(ms: seq<Message>, rest: seq<Byte>)
    requires ms != [] && Overlong(ms[0]) && rest == Frames(ms[1..])
    ensures DecodeAll(Frames(ms)) == ms <==> Survives(ms)
  {
    DecodeOverlong(ms[0], rest);
    AllDecoded(Frames(ms), ms[0] + rest, []);
    assert DecodeOne([]).NoMessage?;
    OnlyOne(ms, rest);
  }

  lemma OnlyOne(ms: seq<Message>, rest: seq<Byte>)
    requires ms != [] && Overlong(ms[0]) && rest == Frames(ms[1..])
    ensures [ms[0] + rest] == ms <==> Survives(ms)
  {
    if |ms| == 1 {
      assert rest == [] && ms[0] + rest == ms[0];
      assert ms == [ms[0]];
    } else {
      assert !Framed(ms[0]);
    }
  }

  lemma AllDecoded(data: seq<Byte>, m: Message, rest: seq<Byte>)
    requires DecodeOne(data) == Message(m, rest)
    ensures DecodeAll(data) == [m] + DecodeAll(rest)
  {
  }

  lemma NotDecoded(data: seq<Byte>, m: Message, ms: seq<Message>)
    requires ms != [] && ms[0] == m && !Framed(m) && !Overlong(m)
    requires DecodeOne(data).Message? ==> |DecodeOne(data).bytes| < |m|
    ensures DecodeAll(data) != ms && !Survives(ms)
  {
  }

  lemma SplitHead(ms: seq<Message>, tail: seq<Message>)
    requires ms != [] && Framed(ms[0])
    ensures [ms[0]] + tail == ms <==> tail == ms[1..]
    ensures Survives(ms) <==> Survives(ms[1..])
  {
    assert ms == [ms[0]] + ms[1..];
    assert ([ms[0]] + tail)[1..] == tail;
    var t := ms[1..];
    forall i | 0 <= i < |t| ensures t[i] == ms[i + 1] {}
    if Survives(t) {
      forall i | 0 <= i < |ms| ensures Framed(ms[i]) || (i == |ms| - 1 && Overlong(ms[i])) {
        if i > 0 { assert Framed(t[i - 1]) || (i - 1 == |t| - 1 && Overlong(t[i - 1])); }
      }
    }
  }
}

/**
 The files and the loops that read and write them byte by byte.
 */
module MessageFiles {
  import opened MessageFraming

  class OutFile {
    var written: seq<Byte>

    constructor ()
      ensures written == []
    {
      written := [];
    }

    method Write(bytes: seq<Byte>)
      modifies this
      ensures written == old(written) + bytes
    {
      written := written + bytes;
    }
  }

  class InFile {
    const data: seq<Byte>
    var pos: nat

    ghost predicate Valid()
      reads this
    {
      pos <= |data|
    }

    /** What is left to read. */
    ghost function Left(): seq<Byte>
      requires Valid()
      reads this
    {
      data[pos..]
    }

    constructor (data: seq<Byte>)
      ensures Valid() && Left() == data
    {
      this.data := data;
      pos := 0;
    }

    method Read(n: int) returns (bytes: seq<Byte>)
      requires Valid()
      modifies this
      ensures Valid() && bytes == Take(old(Left()), n) && Left() == old(Left())[|bytes|..]
    {
      bytes := Take(data[pos..], n);
      pos := pos + |bytes|;
    }
  }

  /** `_EncodeVarint32`. */
  method EncodeVarint32(out: OutFile, length: nat)
    modifies out
    ensures out.written == old(out.written) + Varint(length)
  {
    var value := length;
    var bits := value % 128;
    value := value / 128;
    while value != 0
      invariant bits < 128
      invariant out.written + Varint(128 * value + bits) == old(out.written) + Varint(length)
      decreases value
    {
      ghost var now := 128 * value + bits;
      assert now / 128 == value && now % 128 == bits;
      out.Write([128 + bits]);
      bits := value % 128;
      value := value / 128;
    }
    out.Write([bits]);
  }

  /** `encodeMessage`. */
  method EncodeMessage(out: OutFile, message: Message)
    modifies out
    ensures out.written == old(out.written) + Varint(|message|) + message
  {
    EncodeVarint32(out, |message|);
    out.Write(message);
  }

  /** Writes messages one after the other. */
  method EncodeMessages(out: OutFile, messages: seq<Message>)
    modifies out
    ensures out.written == old(out.written) + Frames(messages)
  {
    var i := 0;
    while i < |messages|
      invariant i <= |messages| && out.written + Frames(messages[i..]) == old(out.written) + Frames(messages)
    {
      assert messages[i..][0] == messages[i] && messages[i..][1..] == messages[i + 1..];
      EncodeMessage(out, messages[i]);
      i := i + 1;
    }
    assert messages[i..] == [];
  }

  /** `_DecodeVarint32`; the end of the file is (0, 0) in the source. */
  method DecodeVarint32(f: InFile) returns (d: Decoded)
    requires f.Valid()
    modifies f
    ensures f.Valid() && d == DecodeFrom(old(f.Left()), 0, 0)
    ensures d.Got? ==> d.used <= |old(f.Left())| && f.Left() == old(f.Left())[d.used..]
  {
    ghost var all := f.Left();
    var result: nat, shift: nat, weight: nat, pos: nat := 0, 0, 1, 0;
    while true
      invariant f.Valid() && pos <= |all| && f.Left() == all[pos..]
      invariant shift == 7 * pos && shift < 64 && weight == Pow128(pos)
      invariant DecodeFrom(all, pos, result) == DecodeFrom(all, 0, 0)
      decreases |all| - pos
    {
      var c := f.Read(1);
      if |c| == 0 {
        return AtEnd;
      }
      var b: int := c[0];
      assert b == all[pos];
      result := result + (b % 128) * weight;
      pos := pos + 1;
      if b < 128 {
        return Got(Masked(result), pos);
      }
      shift, weight := shift + 7, 128 * weight;
      if shift >= 64 {
        return TooLong;
      }
    }
  }

  /** `decodeMessage`, up to the parsing of the bytes. */
  method DecodeMessage(f: InFile) returns (found: bool, bytes: Message)
    requires f.Valid()
    modifies f
    ensures f.Valid() && found == DecodeOne(old(f.Left())).Message?
    ensures found ==> DecodeOne(old(f.Left())) == Message(bytes, f.Left())
  {
    var d := DecodeVarint32(f);
    found, bytes := false, [];
    if d.Got? && d.value != 0 {
      bytes := f.Read(d.value);
      found := true;
    }
  }

  /** Reads messages until none is found. */
  method DecodeMessages(f: InFile) returns (messages: seq<Message>)
    requires f.Valid()
    modifies f
    ensures messages == DecodeAll(old(f.Left()))
  {
    messages := [];
    var found, bytes := DecodeMessage(f);
    ghost var before := old(f.Left());
    while found
      invariant f.Valid()
      invariant found == DecodeOne(before).Message? && (found ==> DecodeOne(before) == Message(bytes, f.Left()))
      invariant messages + DecodeAll(before) == DecodeAll(old(f.Left()))
      decreases |before|
    {
      messages := messages + [bytes];
      before := f.Left();
      found, bytes := DecodeMessage(f);
    }
  }

  /** Messages written to a new file and read back are the same messages in the same order. */
  method WriteAndRead(messages: seq<Message>) returns (back: seq<Message>)
    requires forall i | 0 <= i < |messages| :: Framed(messages[i])
    ensures back == messages
  {
    var out := new OutFile();
    EncodeMessages(out, messages);
    var f := new InFile(out.written);
    back := DecodeMessages(f);
    assert [] + Frames(messages) == Frames(messages);
    FramingRoundTrip(messages);
  }
}
