/**
  How a NAR writes one string: an 8-byte little-endian length, the bytes, and zeros up to a
  multiple of 8 (write_bytes in packages/go2nix-nix-plugin/rust/src/nar.rs), and how a reader
  gets the strings back.
 */
module NarFraming {
  import opened Wrappers
  import Seqs

  type Byte = x: int | 0 <= x < 256
  type Bytes = seq<Byte>

  const WORD: nat := 8

  const MAX_LEN: int := 0x1_0000_0000_0000_0000

  function Ascii(s: string): Bytes
    requires forall i :: 0 <= i < |s| ==> s[i] < 128 as char
  {
    seq<Byte>(|s|, i requires 0 <= i < |s| => s[i] as int)
  }

  // ---- Lengths ----

  /** The k low bytes of n, lowest first. */
  function LittleEndian(n: nat, k: nat): (r: Bytes)
    ensures |r| == k
  {
    if k == 0 then [] else [n % 256] + LittleEndian(n / 256, k - 1)
  }

  function FromLittleEndian(b: Bytes): nat {
    if |b| == 0 then 0 else b[0] + 256 * FromLittleEndian(b[1..])
  }

  function Power256(k: nat): nat {
    if k == 0 then 1 else 256 * Power256(k - 1)
  }

  lemma {:induction false} LengthBack(n: nat, k: nat)
    requires n < Power256(k)
    ensures FromLittleEndian(LittleEndian(n, k)) == n
  {
    if k > 0 {
      LengthBack(n / 256, k - 1);
      assert LittleEndian(n, k)[1..] == LittleEndian(n / 256, k - 1);
    }
  }

  lemma {:induction false} BytesBack(b: Bytes)
    ensures LittleEndian(FromLittleEndian(b), |b|) == b
    ensures FromLittleEndian(b) < Power256(|b|)
  {
    if |b| > 0 {
      BytesBack(b[1..]);
      LowByte(b[0], FromLittleEndian(b[1..]));
      assert b == [b[0]] + b[1..];
    }
  }

  lemma LowByte(low: Byte, rest: nat)
    ensures (low + 256 * rest) % 256 == low && (low + 256 * rest) / 256 == rest
  {
  }

  lemma PowerIsMaxLen()
    ensures Power256(WORD) == MAX_LEN
  {
    assert Power256(4) == 0x1_0000_0000;
  }

  // ---- One string ----

  function PadLength(n: nat): nat {
    (8 - n % 8) % 8
  }

  function Zeros(n: nat): Bytes {
    seq(n, _ => 0)
  }

  /** `data.len() as u64`, the data, the padding. */
  function Framed(data: Bytes): (r: Bytes)
    ensures |r| % 8 == 0
  {
    PadsToWord(|data|);
    LittleEndian(|data| % MAX_LEN, WORD) + data + Zeros(PadLength(|data|))
  }

  lemma PadsToWord(n: nat)
    ensures (8 + n + PadLength(n)) % 8 == 0
  {
  }

  /** One string off the front; None for a length the input does not have, or padding other than zeros. */
  function Unframe(b: Bytes): (r: Option<(Bytes, Bytes)>)
    ensures r.Some? ==> |r.value.1| < |b|
  {
    if |b| < 8 then None
    else
      var len := FromLittleEndian(b[..WORD]);
      var pad := PadLength(len);
      if |b| < 8 + len + pad || b[8 + len..8 + len + pad] != Zeros(pad) then None
      else Some((b[8..8 + len], b[8 + len + pad..]))
  }

  // Over any width whose range is that of a u64: with the 8 written out the solver unrolls the bytes.
  lemma HeaderBackAt(len: nat, width: nat)
    requires len < MAX_LEN == Power256(width)
    ensures FromLittleEndian(LittleEndian(len % MAX_LEN, width)) == len
  {
    LengthBack(len, width);
    assert len % MAX_LEN == len;
  }

  lemma HeaderIsAt(header: Bytes, width: nat)
    requires |header| == width && Power256(width) == MAX_LEN
    ensures FromLittleEndian(header) < MAX_LEN
    ensures LittleEndian(FromLittleEndian(header) % MAX_LEN, width) == header
  {
    BytesBack(header);
    assert FromLittleEndian(header) % MAX_LEN == FromLittleEndian(header);
  }

  lemma Split(header: Bytes, data: Bytes, zeros: Bytes, rest: Bytes)
    requires |header| == WORD
    ensures var b, n := header + data + zeros + rest, 8 + |data|;
      b[..WORD] == header && b[8..n] == data && b[n..n + |zeros|] == zeros && b[n + |zeros|..] == rest
  {
  }

  lemma UnframeFramed(data: Bytes, rest: Bytes)
    requires |data| < MAX_LEN
    ensures Unframe(Framed(data) + rest) == Some((data, rest))
  {
    var header, zeros := LittleEndian(|data| % MAX_LEN, WORD), Zeros(PadLength(|data|));
    Split(header, data, zeros, rest);
    PowerIsMaxLen();
    HeaderBackAt(|data|, WORD);
  }

  lemma FramedUnframe(b: Bytes)
    requires Unframe(b).Some?
    ensures var (data, rest) := Unframe(b).value; |data| < MAX_LEN && b == Framed(data) + rest
  {
    PowerIsMaxLen();
    HeaderIsAt(b[..WORD], WORD);
    var len := FromLittleEndian(b[..WORD]);
    Join(b, WORD, 8 + len, 8 + len + PadLength(len));
  }

  lemma Join(b: Bytes, i: nat, j: nat, k: nat)
    requires i <= j <= k <= |b|
    ensures b == b[..i] + b[i..j] + b[j..k] + b[k..]
  {
  }

  // ---- What the framing is, byte by byte ----

  lemma LowByteFirst(b: Bytes)
    requires |b| > 0
    ensures FromLittleEndian(b) == b[0] + 0x100 * FromLittleEndian(b[1..])
  {
  }

  lemma TwoBytes(b: Bytes)
    requires |b| >= 2
    ensures FromLittleEndian(b) == b[0] as int + 0x100 * b[1] as int + 0x1_0000 * FromLittleEndian(b[2..])
  {
    LowByteFirst(b);
    LowByteFirst(b[1..]);
    assert b[1..][1..] == b[2..];
  }

  /** The number that eight bytes hold, lowest first. */
  function Word(b: Bytes): int
    requires |b| >= 8
  {
    b[0] as int + 0x100 * b[1] as int + 0x1_0000 * b[2] as int + 0x100_0000 * b[3] as int
    + 0x1_0000_0000 * b[4] as int + 0x100_0000_0000 * b[5] as int + 0x1_0000_0000_0000 * b[6] as int
    + 0x100_0000_0000_0000 * b[7] as int
  }

  lemma WordIs(b: Bytes)
    requires |b| == 8
    ensures FromLittleEndian(b) == Word(b)
  {
    TwoBytes(b);
    TwoBytes(b[2..]);
    assert b[2..][2..] == b[4..];
    TwoBytes(b[4..]);
    assert b[4..][2..] == b[6..];
    TwoBytes(b[6..]);
    assert b[6..][2..] == [];
  }

  /** The length in eight bytes, lowest first, the data, and fewer than eight zeros up to a multiple of eight. */
  lemma FramedIs(data: Bytes)
    requires |data| < MAX_LEN
    ensures var r, n := Framed(data), 8 + |data|;
      && |r| % 8 == 0 && n <= |r| < n + 8
      && r[8..n] == data && (forall i :: n <= i < |r| ==> r[i] == 0)
      && Word(r) == |data|
  {
    var header, zeros := LittleEndian(|data| % MAX_LEN, WORD), Zeros(PadLength(|data|));
    Split(header, data, zeros, []);
    assert Framed(data) == header + data + zeros + [];
    PowerIsMaxLen();
    HeaderBackAt(|data|, WORD);
    WordIs(header);
    assert forall i :: 0 <= i < 8 ==> Framed(data)[i] == header[i];
  }

  // ---- Many strings ----

  lemma AddMultiples(a: nat, b: nat)
    requires a % 8 == 0 && b % 8 == 0
    ensures (a + b) % 8 == 0
  {
  }

  function FramedAll(tokens: seq<Bytes>): (r: Bytes)
    ensures |r| % 8 == 0
  {
    if |tokens| == 0 then []
    else
      var first, rest := Framed(tokens[0]), FramedAll(tokens[1..]);
      AddMultiples(|first|, |rest|);
      first + rest
  }

  function UnframeAll(b: Bytes): Option<seq<Bytes>>
    decreases |b|
  {
    if |b| == 0 then Some([])
    else
      var r := Unframe(b);
      if r.None? then None
      else
        var rest := UnframeAll(r.value.1);
        if rest.None? then None else Some([r.value.0] + rest.value)
  }

  ghost predicate Writable(tokens: seq<Bytes>) {
    forall i :: 0 <= i < |tokens| ==> |tokens[i]| < MAX_LEN
  }

  lemma FramedAllStep(first: Bytes, rest: seq<Bytes>)
    ensures FramedAll([first] + rest) == Framed(first) + FramedAll(rest)
  {
    assert ([first] + rest)[1..] == rest;
  }

  lemma {:induction false} FramedAllAppend(a: seq<Bytes>, b: seq<Bytes>)
    ensures FramedAll(a + b) == FramedAll(a) + FramedAll(b)
  {
    if |a| == 0 {
      assert a + b == b;
    } else {
      var first, rest := a[0], a[1..];
      assert a == [first] + rest && a + b == [first] + (rest + b);
      calc {
        FramedAll(a + b);
      == { FramedAllStep(first, rest + b); }
        Framed(first) + FramedAll(rest + b);
      == { FramedAllAppend(rest, b); }
        Framed(first) + (FramedAll(rest) + FramedAll(b));
      == { Seqs.Associates(Framed(first), FramedAll(rest), FramedAll(b)); }
        Framed(first) + FramedAll(rest) + FramedAll(b);
      == { FramedAllStep(first, rest); }
        FramedAll(a) + FramedAll(b);
      }
    }
  }

  lemma UnframeAllStep(data: Bytes, rest: Bytes)
    requires |data| < MAX_LEN && UnframeAll(rest).Some?
    ensures UnframeAll(Framed(data) + rest) == Some([data] + UnframeAll(rest).value)
  {
    UnframeFramed(data, rest);
    assert |Framed(data)| >= 8;
  }

  lemma {:induction false} UnframeAllFramed(tokens: seq<Bytes>)
    requires Writable(tokens)
    ensures UnframeAll(FramedAll(tokens)) == Some(tokens)
  {
    if |tokens| > 0 {
      UnframeAllFramed(tokens[1..]);
      UnframeAllStep(tokens[0], FramedAll(tokens[1..]));
      assert tokens == [tokens[0]] + tokens[1..];
    }
  }

  lemma {:induction false} FramedUnframeAll(b: Bytes)
    requires UnframeAll(b).Some?
    ensures FramedAll(UnframeAll(b).value) == b && Writable(UnframeAll(b).value)
    decreases |b|
  {
    if |b| > 0 {
      FramedUnframe(b);
      var (data, rest) := Unframe(b).value;
      FramedUnframeAll(rest);
      var tokens := UnframeAll(b).value;
      assert tokens[1..] == UnframeAll(rest).value;
    }
  }
}
