/**
 * The raw file buffer and the primitive reads that the C++ performs through
 * pointer casts: little-endian 32-bit integers, 32-bit float words copied
 * bit for bit, and NUL-terminated character strings.
 */
module Bytes {
  import opened Wrappers

  type Byte = b: int | 0 <= b < 0x100

  /** A 32-bit word read verbatim; floats are only ever copied, so they stay opaque words. */
  type Word = w: int | 0 <= w < 0x1_0000_0000

  const INT32_MIN := -0x8000_0000
  const INT32_LIMIT := 0x8000_0000

  /** The unsigned value of the four bytes at `pos`, least significant first. */
  function ReadU32(buf: seq<Byte>, pos: int): (w: Word)
    requires 0 <= pos && pos + 4 <= |buf|
  {
    buf[pos] as int + 0x100 * buf[pos + 1] as int + 0x1_0000 * buf[pos + 2] as int
      + 0x100_0000 * buf[pos + 3] as int
  }

  /** A C++ `int` field: the four bytes at `pos` as a two's-complement value. */
  function ReadI32(buf: seq<Byte>, pos: int): (x: int)
    requires 0 <= pos && pos + 4 <= |buf|
    ensures INT32_MIN <= x < INT32_LIMIT
  {
    var w := ReadU32(buf, pos);
    if w < INT32_LIMIT then w else w - 0x1_0000_0000
  }

  /** The signed and the unsigned reading of a field agree modulo 2^32. */
  lemma ReadI32Wraps(buf: seq<Byte>, pos: int)
    requires 0 <= pos && pos + 4 <= |buf|
    ensures ReadI32(buf, pos) % 0x1_0000_0000 == ReadU32(buf, pos)
    ensures ReadI32(buf, pos) >= 0 <==> ReadU32(buf, pos) < INT32_LIMIT
  {
  }

  /** The four little-endian bytes of a word: the layout ReadU32 reads back. */
  function EncodeU32(w: Word): (bs: seq<Byte>)
    ensures |bs| == 4
  {
    [w % 0x100, (w / 0x100) % 0x100, (w / 0x1_0000) % 0x100, w / 0x100_0000]
  }

  function EncodeI32(x: int): (bs: seq<Byte>)
    requires INT32_MIN <= x < INT32_LIMIT
    ensures |bs| == 4
  {
    EncodeU32(if x < 0 then x + 0x1_0000_0000 else x)
  }

  lemma DecomposeWord(w: Word)
    ensures w % 0x100 + 0x100 * ((w / 0x100) % 0x100) + 0x1_0000 * ((w / 0x1_0000) % 0x100)
            + 0x100_0000 * (w / 0x100_0000) == w
  {
    var a, b, c := w / 0x100, w / 0x1_0000, w / 0x100_0000;
    assert w == 0x100 * a + w % 0x100;
    assert a == 0x100 * (a / 0x100) + a % 0x100;
    assert a / 0x100 == b;
    assert b == 0x100 * (b / 0x100) + b % 0x100;
    assert b / 0x100 == c;
  }

  /** A word written anywhere in a buffer reads back unchanged. */
  lemma {:induction false} ReadEncodeU32(w: Word, pre: seq<Byte>, post: seq<Byte>)
    ensures ReadU32(pre + EncodeU32(w) + post, |pre|) == w
  {
    var buf := pre + EncodeU32(w) + post;
    var e := EncodeU32(w);
    assert buf[|pre|] == e[0] && buf[|pre| + 1] == e[1] && buf[|pre| + 2] == e[2] && buf[|pre| + 3] == e[3];
    DecomposeWord(w);
  }

  /** Reading a word and writing it again reproduces the four bytes it came from. */
  lemma {:induction false} EncodeReadU32(buf: seq<Byte>, pos: int)
    requires 0 <= pos && pos + 4 <= |buf|
    ensures EncodeU32(ReadU32(buf, pos)) == buf[pos..pos + 4]
  {
    var w := ReadU32(buf, pos);
    var b0, b1, b2, b3 := buf[pos] as int, buf[pos + 1] as int, buf[pos + 2] as int, buf[pos + 3] as int;
    assert w == b0 + 0x100 * (b1 + 0x100 * (b2 + 0x100 * b3));
    assert w % 0x100 == b0 && w / 0x100 == b1 + 0x100 * (b2 + 0x100 * b3);
    var a := w / 0x100;
    assert a % 0x100 == b1 && a / 0x100 == b2 + 0x100 * b3;
    assert w / 0x1_0000 == a / 0x100;
    var c := a / 0x100;
    assert c % 0x100 == b2 && c / 0x100 == b3;
    assert w / 0x100_0000 == c / 0x100;
  }

  /** An `int` written anywhere in a buffer reads back unchanged. */
  lemma {:induction false} ReadEncodeI32(x: int, pre: seq<Byte>, post: seq<Byte>)
    requires INT32_MIN <= x < INT32_LIMIT
    ensures ReadI32(pre + EncodeI32(x) + post, |pre|) == x
  {
    ReadEncodeU32(if x < 0 then x + 0x1_0000_0000 else x, pre, post);
  }

  /** Reading an `int` and writing it again reproduces the four bytes it came from. */
  lemma {:induction false} EncodeReadI32(buf: seq<Byte>, pos: int)
    requires 0 <= pos && pos + 4 <= |buf|
    ensures EncodeI32(ReadI32(buf, pos)) == buf[pos..pos + 4]
  {
    EncodeReadU32(buf, pos);
  }

  /** Four bytes that encode a word read back as that word, wherever they sit. */
  lemma {:induction false} ReadU32Of(buf: seq<Byte>, pos: int, w: Word)
    requires 0 <= pos && pos + 4 <= |buf| && buf[pos..pos + 4] == EncodeU32(w)
    ensures ReadU32(buf, pos) == w
  {
    assert buf == buf[..pos] + EncodeU32(w) + buf[pos + 4..];
    ReadEncodeU32(w, buf[..pos], buf[pos + 4..]);
  }

  /** Four bytes that encode an `int` read back as that `int`, wherever they sit. */
  lemma {:induction false} ReadI32Of(buf: seq<Byte>, pos: int, x: int)
    requires INT32_MIN <= x < INT32_LIMIT
    requires 0 <= pos && pos + 4 <= |buf| && buf[pos..pos + 4] == EncodeI32(x)
    ensures ReadI32(buf, pos) == x
  {
    assert buf == buf[..pos] + EncodeI32(x) + buf[pos + 4..];
    ReadEncodeI32(x, buf[..pos], buf[pos + 4..]);
  }

  /** Four bytes equal one by one to the encoding of a word read back as that word. */
  lemma {:induction false} ReadU32Bytes(buf: seq<Byte>, pos: int, w: Word)
    requires 0 <= pos && pos + 4 <= |buf|
    requires var e := EncodeU32(w);
             buf[pos] == e[0] && buf[pos + 1] == e[1] && buf[pos + 2] == e[2] && buf[pos + 3] == e[3]
    ensures ReadU32(buf, pos) == w
  {
    var e := EncodeU32(w);
    assert [] + e + [] == e;
    ReadEncodeU32(w, [], []);
  }

  /** Four bytes equal one by one to the encoding of an `int` read back as that `int`. */
  lemma {:induction false} ReadI32Bytes(buf: seq<Byte>, pos: int, x: int)
    requires INT32_MIN <= x < INT32_LIMIT && 0 <= pos && pos + 4 <= |buf|
    requires var e := EncodeI32(x);
             buf[pos] == e[0] && buf[pos + 1] == e[1] && buf[pos + 2] == e[2] && buf[pos + 3] == e[3]
    ensures ReadI32(buf, pos) == x
  {
    var e := EncodeI32(x);
    assert [] + e + [] == e;
    ReadEncodeI32(x, [], []);
  }

  /** `n` zero bytes: unused or padding fields of a record. */
  function Zeros(n: nat): (bs: seq<Byte>)
    ensures |bs| == n && forall k :: 0 <= k < n ==> bs[k] == 0
  {
    seq(n, _ => 0)
  }

  /** A field read inside a copy of `e` at `p` reads what it reads in `e` itself. */
  lemma {:induction false} ReadWithin(buf: seq<Byte>, p: int, e: seq<Byte>, off: int)
    requires 0 <= p && p + |e| <= |buf| && buf[p..p + |e|] == e
    requires 0 <= off && off + 4 <= |e|
    ensures ReadU32(buf, p + off) == ReadU32(e, off)
    ensures ReadI32(buf, p + off) == ReadI32(e, off)
  {
    assert buf[p + off] == e[off] && buf[p + off + 1] == e[off + 1];
    assert buf[p + off + 2] == e[off + 2] && buf[p + off + 3] == e[off + 3];
  }

  /** A field read inside a part `g` of a record `e` copied at `p` reads what it reads in `g` itself. */
  lemma {:induction false} ReadNested(buf: seq<Byte>, p: int, e: seq<Byte>, q: int, g: seq<Byte>, off: int)
    requires 0 <= p && p + |e| <= |buf| && buf[p..p + |e|] == e
    requires 0 <= q && q + |g| <= |e| && e[q..q + |g|] == g
    requires 0 <= off && off + 4 <= |g|
    ensures ReadU32(buf, p + q + off) == ReadU32(g, off)
    ensures ReadI32(buf, p + q + off) == ReadI32(g, off)
  {
    ReadWithin(e, q, g, off);
    ReadWithin(buf, p, e, q + off);
  }

  /** Bytes taken character for character, as `std::string` holds them. */
  function ToChars(bs: seq<Byte>): (s: string)
    ensures |s| == |bs|
    ensures forall k :: 0 <= k < |bs| ==> s[k] as int == bs[k]
  {
    seq(|bs|, k requires 0 <= k < |bs| => bs[k] as char)
  }

  /** A string a C string can hold: every character a non-NUL byte. */
  predicate IsCName(s: string)
  {
    forall k :: 0 <= k < |s| ==> 0 < s[k] as int < 0x100
  }

  /** The bytes of a C string, without its NUL; ToChars reads them back. */
  function FromChars(s: string): (bs: seq<Byte>)
    requires IsCName(s)
    ensures |bs| == |s| && ToChars(bs) == s
    ensures forall k :: 0 <= k < |bs| ==> bs[k] != 0
  {
    var bs := seq(|s|, k requires 0 <= k < |s| => s[k] as int);
    assert forall k :: 0 <= k < |s| ==> ToChars(bs)[k] == s[k];
    bs
  }

  /**
   * The C string that starts at `pos`: every byte up to, not including, the
   * first NUL, scanned one byte at a time as `strlen` does. A start outside
   * the buffer, or a string that reaches the end of the buffer without a
   * NUL, is what the C++ would read out of bounds.
   */
  function CString(buf: seq<Byte>, pos: int): (r: Result<string>)
    decreases |buf| - pos
    ensures r.Success? ==> 0 <= pos && pos + |r.value| < |buf|
    ensures r.Failure? ==> r.error == if 0 <= pos < |buf| then Unterminated else OutOfBounds
  {
    if pos < 0 || pos >= |buf| then Failure(OutOfBounds)
    else if buf[pos] == 0 then Success("")
    else
      match CString(buf, pos + 1)
      case Success(rest) => Success([buf[pos] as char] + rest)
      case Failure(_) => Failure(Unterminated)
  }

  /**
   * A C string is read exactly when its start is inside the buffer and a NUL
   * follows it; it is then the bytes before the first such NUL, none of them
   * NUL.
   */
  lemma {:induction false} CStringSpec(buf: seq<Byte>, pos: int)
    decreases |buf| - pos
    ensures CString(buf, pos).Success? <==> 0 <= pos < |buf| && exists k :: pos <= k < |buf| && buf[k] == 0
    ensures CString(buf, pos).Success? ==>
              var s := CString(buf, pos).value;
              && buf[pos + |s|] == 0
              && (forall k :: pos <= k < pos + |s| ==> buf[k] != 0)
              && (forall k :: 0 <= k < |s| ==> s[k] as int == buf[pos + k])
  {
    if 0 <= pos < |buf| {
      if buf[pos] == 0 {
        assert buf[pos] == 0;
      } else {
        CStringSpec(buf, pos + 1);
        if exists k :: pos <= k < |buf| && buf[k] == 0 {
          var k :| pos <= k < |buf| && buf[k] == 0;
          assert pos + 1 <= k;
        }
        if CString(buf, pos).Success? {
          var t := CString(buf, pos + 1).value;
          var s := CString(buf, pos).value;
          assert s == [buf[pos] as char] + t;
          assert buf[pos + 1 + |t|] == 0;
          assert buf[pos + |s|] == 0;
          forall k | 0 <= k < |s|
            ensures buf[pos + k] != 0 && s[k] as int == buf[pos + k]
          {
            if k > 0 {
              assert s[k] == t[k - 1];
              assert buf[pos + 1 + (k - 1)] != 0 && t[k - 1] as int == buf[pos + 1 + (k - 1)];
            } else {
              assert s[0] == buf[pos] as char;
            }
          }
        }
      }
    }
  }

  /**
   * Appending one NUL to a file's bytes, as the loader does, makes every
   * string that starts inside the file terminate.
   */
  lemma {:induction false} TerminatedBuffer(bytes: seq<Byte>, pos: int)
    requires 0 <= pos <= |bytes|
    ensures CString(bytes + [0], pos).Success?
  {
    CStringSpec(bytes + [0], pos);
    assert (bytes + [0])[|bytes|] == 0;
  }

  /** A string written with its NUL is read back exactly, without the NUL. */
  lemma {:induction false} CStringOfWritten(buf: seq<Byte>, pos: int, s: seq<Byte>)
    requires 0 <= pos && pos + |s| < |buf|
    requires buf[pos..pos + |s|] == s && buf[pos + |s|] == 0
    requires forall k :: 0 <= k < |s| ==> s[k] != 0
    ensures CString(buf, pos) == Success(ToChars(s))
  {
    CStringSpec(buf, pos);
    assert buf[pos + |s|] == 0;
    var r := CString(buf, pos).value;
    assert forall k :: 0 <= k < |s| ==> buf[pos + k] == s[k];
    assert r == ToChars(s);
  }

  /** A name written with its NUL is read back as that name. */
  lemma {:induction false} CStringOfName(buf: seq<Byte>, pos: int, s: string)
    requires IsCName(s) && 0 <= pos && pos + |s| < |buf|
    requires buf[pos..pos + |s|] == FromChars(s) && buf[pos + |s|] == 0
    ensures CString(buf, pos) == Success(s)
  {
    CStringOfWritten(buf, pos, FromChars(s));
  }
}
