/** Framing of a serial buffer into raw packets: the buffer is split on every
    `F2 F2` (as `bytes.split` does, leftmost first, without overlap) and the
    empty pieces are dropped (bin/user/wmr89.py:238). */
module Framing {
  import opened Values

  const DELIMITER: seq<Byte> := [0xF2, 0xF2]

  /** The two bytes at `i` are the delimiter. */
  predicate DelimiterAt(p: seq<Byte>, i: int)
  {
    0 <= i < |p| - 1 && p[i] == 0xF2 && p[i + 1] == 0xF2
  }

  predicate HasDelimiter(p: seq<Byte>)
  {
    exists i | 0 <= i < |p| - 1 :: DelimiterAt(p, i)
  }

  /** `buf.split(b'\xf2\xf2')`: the pieces between delimiters, empty ones included.
      The first piece is what precedes the leftmost delimiter. */
  function Split(s: seq<Byte>): (pieces: seq<seq<Byte>>)
    ensures |pieces| >= 1
    ensures pieces[0] <= s
    decreases |s|
  {
    if |s| < 2 then [s]
    else if s[0] == 0xF2 && s[1] == 0xF2 then [[]] + Split(s[2..])
    else
      var rest := Split(s[1..]);
      [[s[0]] + rest[0]] + rest[1..]
  }

  /** `b'\xf2\xf2'.join(pieces)`: Split's inverse. */
  function Join(pieces: seq<seq<Byte>>): seq<Byte>
    requires |pieces| >= 1
  {
    if |pieces| == 1 then pieces[0] else pieces[0] + DELIMITER + Join(pieces[1..])
  }

  /** All the pieces laid end to end, delimiters left out. */
  function Concat(pieces: seq<seq<Byte>>): seq<Byte>
  {
    if pieces == [] then [] else pieces[0] + Concat(pieces[1..])
  }

  /** The list comprehension's `if _f`: keep the non-empty pieces, in order. */
  function KeepNonEmpty(pieces: seq<seq<Byte>>): (kept: seq<seq<Byte>>)
    ensures |kept| <= |pieces|
    ensures forall i :: 0 <= i < |kept| ==> |kept[i]| > 0
  {
    if pieces == [] then []
    else if pieces[0] == [] then KeepNonEmpty(pieces[1..])
    else [pieces[0]] + KeepNonEmpty(pieces[1..])
  }

  /** Every kept piece is one of the pieces, and dropping empty pieces
      leaves their concatenation unchanged. */
  lemma {:induction false} KeepNonEmptyFromPieces(pieces: seq<seq<Byte>>)
    ensures forall i :: 0 <= i < |KeepNonEmpty(pieces)| ==> KeepNonEmpty(pieces)[i] in pieces
    ensures Concat(KeepNonEmpty(pieces)) == Concat(pieces)
    decreases |pieces|
  {
    if pieces != [] {
      var rest := KeepNonEmpty(pieces[1..]);
      KeepNonEmptyFromPieces(pieces[1..]);
      forall i | 0 <= i < |rest| ensures rest[i] in pieces {
        assert rest[i] in pieces[1..];
      }
      if pieces[0] != [] {
        var kept := [pieces[0]] + rest;
        assert kept[1..] == rest;
      }
    }
  }

  /** The raw packets of one buffer (bin/user/wmr89.py:238). */
  function Frame(buf: seq<Byte>): (frags: seq<seq<Byte>>)
    ensures forall j :: 0 <= j < |frags| ==> |frags[j]| > 0 && frags[j] in Split(buf)
    ensures |frags| <= |Split(buf)|
  {
    KeepNonEmptyFromPieces(Split(buf));
    KeepNonEmpty(Split(buf))
  }

  /** Joining the unfiltered pieces with the delimiter gives the buffer back. */
  lemma {:induction false} JoinSplit(s: seq<Byte>)
    ensures Join(Split(s)) == s
    decreases |s|
  {
    if |s| < 2 {
    } else if s[0] == 0xF2 && s[1] == 0xF2 {
      JoinSplit(s[2..]);
      assert Split(s) == [[]] + Split(s[2..]);
      assert s == DELIMITER + s[2..];
    } else {
      var rest := Split(s[1..]);
      JoinSplit(s[1..]);
      assert s == [s[0]] + s[1..];
      if |rest| == 1 {
        assert Split(s) == [[s[0]] + rest[0]];
      } else {
        var pieces := Split(s);
        assert pieces[1..] == rest[1..];
        calc {
          Join(pieces);
          ([s[0]] + rest[0]) + DELIMITER + Join(rest[1..]);
          [s[0]] + (rest[0] + DELIMITER + Join(rest[1..]));
          [s[0]] + Join(rest);
        }
      }
    }
  }

  /** No piece of the split contains a delimiter. */
  lemma {:induction false} SplitPiecesHaveNoDelimiter(s: seq<Byte>)
    ensures forall j :: 0 <= j < |Split(s)| ==> !HasDelimiter(Split(s)[j])
    decreases |s|
  {
    if |s| < 2 {
      assert forall i :: !DelimiterAt(s, i);
    } else if s[0] == 0xF2 && s[1] == 0xF2 {
      SplitPiecesHaveNoDelimiter(s[2..]);
      assert forall i :: !DelimiterAt([], i);
      assert Split(s)[1..] == Split(s[2..]);
    } else {
      var rest := Split(s[1..]);
      SplitPiecesHaveNoDelimiter(s[1..]);
      var first := [s[0]] + rest[0];
      forall i | DelimiterAt(first, i)
        ensures false
      {
        if i > 0 {
          assert DelimiterAt(rest[0], i - 1);
        }
      }
      assert Split(s)[1..] == rest[1..];
    }
  }

  /** A buffer splits into itself alone exactly when it holds no delimiter. */
  lemma {:induction false} SplitWholeIffNoDelimiter(s: seq<Byte>)
    ensures Split(s) == [s] <==> !HasDelimiter(s)
    decreases |s|
  {
    if !HasDelimiter(s) && |s| >= 2 {
      assert !DelimiterAt(s, 0);
      assert !HasDelimiter(s[1..]) by {
        forall i | 0 <= i < |s[1..]| - 1 && DelimiterAt(s[1..], i) ensures false {
          assert DelimiterAt(s, i + 1);
        }
      }
      SplitWholeIffNoDelimiter(s[1..]);
      assert [s[0]] + s[1..] == s;
    }
    if Split(s) == [s] {
      SplitPiecesHaveNoDelimiter(s);
      assert Split(s)[0] == s;
    }
  }

  /** Every raw packet is non-empty and holds no delimiter. */
  lemma FramesAreClean(buf: seq<Byte>)
    ensures forall j :: 0 <= j < |Frame(buf)| ==> |Frame(buf)[j]| > 0 && !HasDelimiter(Frame(buf)[j])
  {
    SplitPiecesHaveNoDelimiter(buf);
  }

  /** The raw packets keep the buffer's order: laid end to end they are the
      buffer with its delimiters taken out, exactly as the split pieces are. */
  lemma FramesKeepOrder(buf: seq<Byte>)
    ensures Concat(Frame(buf)) == Concat(Split(buf))
    ensures Join(Split(buf)) == buf
  {
    KeepNonEmptyFromPieces(Split(buf));
    JoinSplit(buf);
  }

  /** One piece is kept exactly when it is non-empty. */
  lemma KeepNonEmptyOne(p: seq<Byte>)
    ensures KeepNonEmpty([p]) == if p == [] then [] else [p]
  {
    assert [p][1..] == [];
  }

  /** Filtering a list with one more piece in front. */
  lemma KeepNonEmptyCons(p: seq<Byte>, rest: seq<seq<Byte>>)
    ensures KeepNonEmpty([p] + rest) == KeepNonEmpty([p]) + KeepNonEmpty(rest)
  {
    KeepNonEmptyOne(p);
    assert ([p] + rest)[0] == p && ([p] + rest)[1..] == rest;
  }

  /** Filtering a list in two parts filters each part in turn; with
      KeepNonEmptyOne this makes the kept pieces the non-empty ones in their
      original order. */
  lemma {:induction false} KeepNonEmptyConcat(a: seq<seq<Byte>>, b: seq<seq<Byte>>)
    ensures KeepNonEmpty(a + b) == KeepNonEmpty(a) + KeepNonEmpty(b)
    decreases |a|
  {
    if a == [] {
      assert a + b == b;
    } else {
      var p, rest := a[0], a[1..];
      assert a == [p] + rest;
      assert a + b == [p] + (rest + b);
      var x, y, z := KeepNonEmpty([p]), KeepNonEmpty(rest), KeepNonEmpty(b);
      assert KeepNonEmpty(a + b) == x + (y + z) by {
        KeepNonEmptyCons(p, rest + b);
        KeepNonEmptyConcat(rest, b);
      }
      assert KeepNonEmpty(a) == x + y by {
        KeepNonEmptyCons(p, rest);
      }
      assert x + (y + z) == (x + y) + z;
    }
  }

  /** A buffer that starts with a delimiter-free piece ending in a byte other
      than F2 and then a delimiter splits into that piece followed by the
      split of the rest. */
  lemma {:induction false} SplitAfterPiece(x: seq<Byte>, y: seq<Byte>)
    requires !HasDelimiter(x) && (x == [] || x[|x| - 1] != 0xF2)
    ensures Split(x + DELIMITER + y) == [x] + Split(y)
    decreases |x|
  {
    var s := x + DELIMITER + y;
    if x == [] {
      assert s[2..] == y;
    } else {
      assert s[0] == x[0];
      if |x| >= 2 {
        assert !DelimiterAt(x, 0);
        assert s[1] == x[1];
      }
      assert !HasDelimiter(x[1..]) by {
        forall i | 0 <= i < |x[1..]| - 1 && DelimiterAt(x[1..], i) ensures false {
          assert DelimiterAt(x, i + 1);
        }
      }
      assert s[1..] == x[1..] + DELIMITER + y;
      SplitAfterPiece(x[1..], y);
      assert [x[0]] + x[1..] == x;
    }
  }

  /** The raw packets keep the buffer's order: the piece before the first
      delimiter, when it is not empty, is the first packet, and the packets of
      the rest of the buffer follow it in their own order. */
  lemma FrameAfterPiece(x: seq<Byte>, y: seq<Byte>)
    requires !HasDelimiter(x) && (x == [] || x[|x| - 1] != 0xF2)
    ensures Frame(x + DELIMITER + y) == (if x == [] then [] else [x]) + Frame(y)
  {
    SplitAfterPiece(x, y);
    KeepNonEmptyConcat([x], Split(y));
    KeepNonEmptyOne(x);
  }

  /** Leading, trailing and adjacent delimiters yield no packet. */
  lemma FrameExample()
    ensures Frame([0xF2, 0xF2, 0x41, 0xF2, 0xF2, 0x42, 0xF2, 0xF2]) == [[0x41], [0x42]]
  {
    var s: seq<Byte> := [0xF2, 0xF2, 0x41, 0xF2, 0xF2, 0x42, 0xF2, 0xF2];
    var tail: seq<Byte> := [0x42, 0xF2, 0xF2];
    var none: seq<Byte> := [];
    var r1 := Split(tail[1..]);
    assert tail[1..][2..] == none;
    assert r1 == [none] + Split(none) == [none, none];
    assert Split(tail) == [[tail[0]] + r1[0]] + r1[1..];
    assert [tail[0]] + r1[0] == [0x42];
    assert Split(tail) == [[0x42], none];
    assert Split(s[3..]) == [[], [0x42], []] by {
      assert s[3..][2..] == tail;
    }
    var mid: seq<Byte> := [0x41, 0xF2, 0xF2, 0x42, 0xF2, 0xF2];
    assert mid[1..] == s[3..];
    var r2 := Split(mid[1..]);
    assert Split(mid) == [[mid[0]] + r2[0]] + r2[1..];
    assert [mid[0]] + r2[0] == [0x41];
    assert Split(mid) == [[0x41], [0x42], []];
    assert s[2..] == mid;
    assert Split(s) == [[], [0x41], [0x42], []];
  }
}
