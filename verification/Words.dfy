/** Bytes, words and quadwords, and the little-endian byte streams they are moved as. */
module Words {
  type ubyte = x: int | 0 <= x < 0x100
  type uword = x: int | 0 <= x < 0x1_0000_0000

  /** A 128-bit unit, least significant word first. */
  datatype Qword = Qword(uw0: uword, uw1: uword, uw2: uword, uw3: uword)

  const ZERO_QWORD := Qword(0, 0, 0, 0)

  /** Addition on 32-bit registers; the offset may be negative. */
  function Wrap(x: int): uword
  {
    if 0 <= x < 0x1_0000_0000 then x else x % 0x1_0000_0000
  }

  function WordBytes(w: uword): (b: seq<ubyte>)
    ensures |b| == 4
  {
    [w % 0x100, w / 0x100 % 0x100, w / 0x1_0000 % 0x100, w / 0x100_0000]
  }

  function WordOf(b: seq<ubyte>): uword
    requires |b| == 4
  {
    var b0: int, b1: int, b2: int, b3: int := b[0], b[1], b[2], b[3];
    b0 + 0x100 * b1 + 0x1_0000 * b2 + 0x100_0000 * b3
  }

  function QwordBytes(q: Qword): (b: seq<ubyte>)
    ensures |b| == 16
  {
    WordBytes(q.uw0) + WordBytes(q.uw1) + WordBytes(q.uw2) + WordBytes(q.uw3)
  }

  function QwordOf(b: seq<ubyte>): Qword
    requires |b| == 16
  {
    Qword(WordOf(b[0..4]), WordOf(b[4..8]), WordOf(b[8..12]), WordOf(b[12..16]))
  }

  /** The bytes of a sequence of words. */
  function WordStream(ws: seq<uword>): (b: seq<ubyte>)
    ensures |b| == 4 * |ws|
  {
    if ws == [] then [] else WordBytes(ws[0]) + WordStream(ws[1..])
  }

  /** The bytes of a sequence of quadwords. */
  function QwordStream(qs: seq<Qword>): (b: seq<ubyte>)
    ensures |b| == 16 * |qs|
  {
    if qs == [] then [] else QwordBytes(qs[0]) + QwordStream(qs[1..])
  }

  /** The quadwords in a byte stream; an incomplete one at the end is dropped. */
  function ParseQwords(b: seq<ubyte>): (qs: seq<Qword>)
    ensures |qs| == |b| / 16
  {
    if |b| < 16 then [] else [QwordOf(b[..16])] + ParseQwords(b[16..])
  }

  /** Consecutive words grouped in fours. */
  function GroupWords(ws: seq<uword>): (qs: seq<Qword>)
    ensures |qs| == |ws| / 4
  {
    if |ws| < 4 then [] else [Qword(ws[0], ws[1], ws[2], ws[3])] + GroupWords(ws[4..])
  }

  lemma WordRoundTrip(w: uword)
    ensures WordOf(WordBytes(w)) == w
  {
    var x: int := w;
    var (y, z) := (x / 0x100, x / 0x1_0000);
    assert z == y / 0x100 && x / 0x100_0000 == z / 0x100;
    assert x == x % 0x100 + 0x100 * y && y == y % 0x100 + 0x100 * z && z == z % 0x100 + 0x100 * (z / 0x100);
  }

  lemma QwordRoundTrip(q: Qword)
    ensures QwordOf(QwordBytes(q)) == q
  {
    var b := QwordBytes(q);
    assert b[0..4] == WordBytes(q.uw0);
    assert b[4..8] == WordBytes(q.uw1);
    assert b[8..12] == WordBytes(q.uw2);
    assert b[12..16] == WordBytes(q.uw3);
    WordRoundTrip(q.uw0);
    WordRoundTrip(q.uw1);
    WordRoundTrip(q.uw2);
    WordRoundTrip(q.uw3);
  }

  /** The value of four bytes, the last one most significant. */
  function Value(b: seq<ubyte>, i: nat): int
    requires i + 4 <= |b|
  {
    (b[i] as int) + 0x100 * (b[i + 1] as int) + 0x1_0000 * (b[i + 2] as int) + 0x100_0000 * (b[i + 3] as int)
  }

  /** The least significant byte of the least significant word comes first. */
  lemma LittleEndian(q: Qword)
    ensures
      var b := QwordBytes(q);
      q.uw0 == Value(b, 0) && q.uw1 == Value(b, 4) && q.uw2 == Value(b, 8) && q.uw3 == Value(b, 12)
  {
    var b := QwordBytes(q);
    QwordRoundTrip(q);
    assert WordOf(b[0..4]) == q.uw0 && WordOf(b[4..8]) == q.uw1 && WordOf(b[8..12]) == q.uw2 && WordOf(b[12..16]) == q.uw3;
  }

  lemma BytesOfWord(b: seq<ubyte>)
    requires |b| == 4
    ensures WordBytes(WordOf(b)) == b
  {
    var b0: int, b1: int, b2: int, b3: int := b[0], b[1], b[2], b[3];
    var w := WordOf(b);
    assert w / 0x100 == b1 + 0x100 * (b2 + 0x100 * b3);
    assert w / 0x1_0000 == b2 + 0x100 * b3;
  }

  lemma BytesOfQword(b: seq<ubyte>)
    requires |b| == 16
    ensures QwordBytes(QwordOf(b)) == b
  {
    BytesOfWord(b[0..4]);
    BytesOfWord(b[4..8]);
    BytesOfWord(b[8..12]);
    BytesOfWord(b[12..16]);
    assert b == b[0..4] + b[4..8] + b[8..12] + b[12..16];
  }

  lemma Assoc<T>(a: seq<T>, b: seq<T>, c: seq<T>)
    ensures (a + b) + c == a + (b + c)
  {
  }

  lemma {:induction false} QwordStreamConcat(a: seq<Qword>, b: seq<Qword>)
    ensures QwordStream(a + b) == QwordStream(a) + QwordStream(b)
  {
    if a == [] {
      assert a + b == b;
    } else {
      QwordStreamConcat(a[1..], b);
      assert (a + b)[1..] == a[1..] + b;
      Assoc(QwordBytes(a[0]), QwordStream(a[1..]), QwordStream(b));
    }
  }

  lemma {:induction false} WordStreamConcat(a: seq<uword>, b: seq<uword>)
    ensures WordStream(a + b) == WordStream(a) + WordStream(b)
  {
    if a == [] {
      assert a + b == b;
    } else {
      WordStreamConcat(a[1..], b);
      assert (a + b)[1..] == a[1..] + b;
      Assoc(WordBytes(a[0]), WordStream(a[1..]), WordStream(b));
    }
  }

  lemma ParseCons(q: Qword, rest: seq<ubyte>)
    ensures ParseQwords(QwordBytes(q) + rest) == [q] + ParseQwords(rest)
  {
    var b := QwordBytes(q) + rest;
    assert b[..16] == QwordBytes(q);
    assert b[16..] == rest;
    QwordRoundTrip(q);
  }

  /** Reading back the quadwords of a stream, whatever follows them. */
  lemma {:induction false} ParseAfterStream(qs: seq<Qword>, rest: seq<ubyte>)
    ensures ParseQwords(QwordStream(qs) + rest) == qs + ParseQwords(rest)
  {
    if qs == [] {
      assert QwordStream(qs) + rest == rest;
    } else {
      var more := QwordStream(qs[1..]) + rest;
      Assoc(QwordBytes(qs[0]), QwordStream(qs[1..]), rest);
      ParseCons(qs[0], more);
      ParseAfterStream(qs[1..], rest);
      Assoc([qs[0]], qs[1..], ParseQwords(rest));
      assert qs == [qs[0]] + qs[1..];
    }
  }

  lemma OneWord(w: uword)
    ensures WordStream([w]) == WordBytes(w)
  {
    assert [w][1..] == [];
  }

  lemma FourWords(a: uword, b: uword, c: uword, d: uword)
    ensures WordStream([a, b, c, d]) == QwordBytes(Qword(a, b, c, d))
  {
    WordStreamConcat([a], [b, c, d]);
    WordStreamConcat([b], [c, d]);
    WordStreamConcat([c], [d]);
    assert [a, b, c, d] == [a] + [b, c, d] && [b, c, d] == [b] + [c, d] && [c, d] == [c] + [d];
    OneWord(a);
    OneWord(b);
    OneWord(c);
    OneWord(d);
  }

  /** A payload of whole quadwords is the same stream as its words. */
  lemma {:induction false} GroupedStream(ws: seq<uword>)
    requires |ws| % 4 == 0
    ensures QwordStream(GroupWords(ws)) == WordStream(ws)
  {
    if |ws| < 4 {
    } else {
      GroupedStream(ws[4..]);
      assert ws == [ws[0], ws[1], ws[2], ws[3]] + ws[4..];
      WordStreamConcat([ws[0], ws[1], ws[2], ws[3]], ws[4..]);
      FourWords(ws[0], ws[1], ws[2], ws[3]);
    }
  }
}
