/** Big-endian integers and the cursor parser (crypto/core/src/utils.rs). */
module ByteCodec {
  import opened Symbolic

  type u16 = n: nat | n < 0x1_0000
  type u64 = n: nat | n < 0x1_0000_0000_0000_0000

  function U16Be(n: u16): (b: Bytes)
    ensures |b| == 2
  {
    [(n / 0x100) as u8, (n % 0x100) as u8]
  }

  function U32Be(n: u32): (b: Bytes)
    ensures |b| == 4
  {
    U16Be(n / 0x1_0000) + U16Be(n % 0x1_0000)
  }

  function U64Be(n: u64): (b: Bytes)
    ensures |b| == 8
  {
    U32Be(n / 0x1_0000_0000) + U32Be(n % 0x1_0000_0000)
  }

  function FromU16Be(b: Bytes): u16
    requires |b| == 2
  {
    b[0] as nat * 0x100 + b[1] as nat
  }

  function FromU32Be(b: Bytes): u32
    requires |b| == 4
  {
    FromU16Be(b[..2]) * 0x1_0000 + FromU16Be(b[2..])
  }

  function FromU64Be(b: Bytes): u64
    requires |b| == 8
  {
    FromU32Be(b[..4]) * 0x1_0000_0000 + FromU32Be(b[4..])
  }

  lemma U16Inverse(n: u16, b: Bytes)
    requires |b| == 2
    ensures FromU16Be(U16Be(n)) == n
    ensures U16Be(FromU16Be(b)) == b
  {
  }

  // Big-endian values.
  lemma BigEndian(b: Bytes)
    ensures |b| == 2 ==> FromU16Be(b) == b[0] as nat * 256 + b[1] as nat
    ensures |b| == 4 ==>
              FromU32Be(b) == b[0] as nat * 16777216 + b[1] as nat * 65536 + b[2] as nat * 256 + b[3] as nat
  {
  }

  lemma U32Inverse(n: u32, b: Bytes)
    requires |b| == 4
    ensures FromU32Be(U32Be(n)) == n
    ensures U32Be(FromU32Be(b)) == b
  {
    var hi, lo := U16Be(n / 0x1_0000), U16Be(n % 0x1_0000);
    U16Inverse(n / 0x1_0000, b[..2]);
    U16Inverse(n % 0x1_0000, b[2..]);
    Split(hi, lo);
    assert b == b[..2] + b[2..];
  }

  lemma Split(a: Bytes, b: Bytes)
    ensures (a + b)[..|a|] == a && (a + b)[|a|..] == b
  {
  }

  lemma SubSlice(b: Bytes, off: nat, len: nat, from: nat, to: nat)
    requires off + len <= |b| && from <= to <= len
    ensures b[off..off + len][from..to] == b[off + from..off + to]
  {
    var w := b[off..off + len];
    forall j | 0 <= j < to - from
      ensures w[from..to][j] == b[off + from..off + to][j]
    {
      assert w[from + j] == b[off + from + j];
    }
  }

  lemma U64Decode(n: u64)
    ensures FromU64Be(U64Be(n)) == n
  {
    var hi, lo := U32Be(n / 0x1_0000_0000), U32Be(n % 0x1_0000_0000);
    U32Inverse(n / 0x1_0000_0000, hi);
    U32Inverse(n % 0x1_0000_0000, lo);
    Split(hi, lo);
  }

  lemma U64Encode(b: Bytes)
    requires |b| == 8
    ensures U64Be(FromU64Be(b)) == b
  {
    var hi: nat, lo: nat := FromU32Be(b[..4]), FromU32Be(b[4..]);
    U32Inverse(hi, b[..4]);
    U32Inverse(lo, b[4..]);
    var n := FromU64Be(b);
    assert n == hi * 0x1_0000_0000 + lo;
    assert n / 0x1_0000_0000 == hi && n % 0x1_0000_0000 == lo;
    assert b == b[..4] + b[4..];
  }

  /** Reads `n` bytes off the front of `d`: the bytes and what follows them. */
  function ReadN(d: Bytes, n: nat): Result<(Bytes, Bytes)> {
    if n > |d| then Err(InvalidCiphertext) else Ok((d[..n], d[n..]))
  }

  lemma ReadFront(a: Bytes, b: Bytes)
    ensures ReadN(a + b, |a|) == Ok((a, b))
  {
    assert (a + b)[..|a|] == a && (a + b)[|a|..] == b;
  }

  class ByteParser {
    const data: Bytes
    var pos: nat

    ghost predicate Valid()
      reads this
    {
      pos <= |data|
    }

    // What is left to read.
    ghost function Rest(): Bytes
      requires Valid()
      reads this
    {
      data[pos..]
    }

    constructor (data: Bytes)
      ensures Valid() && this.data == data && Rest() == data
    {
      this.data := data;
      pos := 0;
    }

    method ReadBytes(n: nat) returns (r: Result<Bytes>)
      requires Valid()
      modifies this`pos
      ensures Valid()
      ensures match ReadN(old(Rest()), n)
              case Ok((b, rest)) => r == Ok(b) && Rest() == rest && pos == old(pos) + n
              case Err(e) => r == Err(e) && pos == old(pos)
    {
      if pos + n > |data| {
        return Err(InvalidCiphertext);
      }
      var v := data[pos..pos + n];
      assert data[pos..][..n] == v && data[pos..][n..] == data[pos + n..];
      pos := pos + n;
      return Ok(v);
    }

    method ReadU8() returns (r: Result<u8>)
      requires Valid()
      modifies this`pos
      ensures Valid()
      ensures match ReadN(old(Rest()), 1)
              case Ok((b, rest)) => r == Ok(b[0]) && Rest() == rest
              case Err(e) => r == Err(e) && pos == old(pos)
    {
      var b := ReadBytes(1);
      match b {
        case Ok(v) => return Ok(v[0]);
        case Err(e) => return Err(e);
      }
    }

    method ReadU16() returns (r: Result<u16>)
      requires Valid()
      modifies this`pos
      ensures Valid()
      ensures match ReadN(old(Rest()), 2)
              case Ok((b, rest)) => r == Ok(FromU16Be(b)) && Rest() == rest
              case Err(e) => r == Err(e) && pos == old(pos)
    {
      var b := ReadBytes(2);
      match b {
        case Ok(v) => return Ok(FromU16Be(v));
        case Err(e) => return Err(e);
      }
    }

    method ReadU32() returns (r: Result<u32>)
      requires Valid()
      modifies this`pos
      ensures Valid()
      ensures match ReadN(old(Rest()), 4)
              case Ok((b, rest)) => r == Ok(FromU32Be(b)) && Rest() == rest
              case Err(e) => r == Err(e) && pos == old(pos)
    {
      var b := ReadBytes(4);
      match b {
        case Ok(v) => return Ok(FromU32Be(v));
        case Err(e) => return Err(e);
      }
    }

    // A presence byte equal to 1 followed by 32 bytes; any other presence byte means absent.
    method ReadOptional() returns (r: Result<Option<Bytes>>)
      requires Valid()
      modifies this`pos
      ensures Valid()
      ensures match ReadOption(old(Rest()))
              case Ok((v, rest)) => r == Ok(v) && Rest() == rest
              case Err(e) => r == Err(e)
    {
      var flag := ReadU8();
      if flag.Err? {
        return Err(flag.error);
      }
      if flag.value != 1 {
        return Ok(None);
      }
      var b := ReadBytes(32);
      match b {
        case Ok(v) => return Ok(Some(v));
        case Err(e) => return Err(e);
      }
    }
  }

  function ReadOption(d: Bytes): Result<(Option<Bytes>, Bytes)> {
    var (flag, d1) :- ReadN(d, 1);
    if flag[0] != 1 then Ok((None, d1))
    else
      var (v, d2) :- ReadN(d1, 32);
      Ok((Some(v), d2))
  }

  function OptionBytes(k: Option<Bytes>): Bytes {
    match k
    case None => [0]
    case Some(v) => [1] + v
  }

  lemma ReadOptionFront(k: Option<Bytes>, rest: Bytes)
    requires k.Some? ==> |k.value| == 32
    ensures ReadOption(OptionBytes(k) + rest) == Ok((k, rest))
  {
    match k
    case None =>
      ReadFront([0], rest);
    case Some(v) =>
      assert OptionBytes(k) + rest == [1] + (v + rest);
      ReadFront([1], v + rest);
      ReadFront(v, rest);
  }

  // `Uint8Array.set`: writes `src` into `dst` from `off` on.
  method SetBytes(dst: array<u8>, src: Bytes, off: nat)
    requires off + |src| <= dst.Length
    modifies dst
    ensures dst[..off] == old(dst[..off])
    ensures dst[off..off + |src|] == src
    ensures dst[off + |src|..] == old(dst[off + |src|..])
  {
    for i := 0 to |src|
      invariant dst[..off] == old(dst[..off])
      invariant dst[off..off + i] == src[..i]
      invariant dst[off + i..] == old(dst[off + i..])
    {
      ghost var before := dst[..];
      dst[off + i] := src[i];
      assert dst[..] == before[off + i := src[i]];
      assert dst[off..off + i + 1] == dst[off..off + i] + [src[i]];
      assert dst[off + (i + 1)..] == before[off + (i + 1)..] == before[off + i..][1..];
    }
  }
}
