/** Splitting a sequence at a separator (`strings.Split`, lines of a stream). */
module Splitting {

  function Last<T>(s: seq<T>): T
    requires s != []
  {
    s[|s| - 1]
  }

  function Init<T>(s: seq<T>): seq<T>
    requires s != []
  {
    s[..|s| - 1]
  }

  /** The pieces after one more element: a separator opens a piece, anything else joins the last. */
  function Extend<T(==)>(pieces: seq<seq<T>>, x: T, sep: T): (extended: seq<seq<T>>)
    requires pieces != []
    ensures extended != []
  {
    if x == sep then pieces + [[]] else Init(pieces) + [Last(pieces) + [x]]
  }

  /** The pieces between separators: one more piece than there are separators. */
  function Split<T(==)>(s: seq<T>, sep: T): (pieces: seq<seq<T>>)
    ensures pieces != []
  {
    if s == [] then [[]] else Extend(Split(Init(s), sep), Last(s), sep)
  }

  lemma ExtendLocal<T>(a: seq<seq<T>>, b: seq<seq<T>>, x: T, sep: T)
    requires b != []
    ensures Extend(a + b, x, sep) == a + Extend(b, x, sep)
  {
    assert Init(a + b) == a + Init(b);
  }

  /** Text without a separator joins the last piece. */
  lemma {:induction false} SplitSuffix<T>(a: seq<T>, b: seq<T>, sep: T)
    requires sep !in b
    ensures Split(a + b, sep) == Init(Split(a, sep)) + [Last(Split(a, sep)) + b]
  {
    if b == [] {
      assert a + b == a && Last(Split(a, sep)) + b == Last(Split(a, sep));
    } else {
      var c, x, pieces := Init(b), Last(b), Split(a, sep);
      assert b == c + [x] && x in b;
      SplitSuffix(a, c, sep);
      assert Init(a + b) == a + c;
      ExtendLocal(Init(pieces), [Last(pieces) + c], x, sep);
      assert Last(pieces) + c + [x] == Last(pieces) + b;
    }
  }

  /** A separator ends one piece and begins the next. */
  lemma {:induction false} SplitSeparator<T>(a: seq<T>, b: seq<T>, sep: T)
    ensures Split(a + [sep] + b, sep) == Split(a, sep) + Split(b, sep)
  {
    if b == [] {
      assert a + [sep] + b == a + [sep];
      assert Init(a + [sep]) == a;
    } else {
      SplitSeparator(a, Init(b), sep);
      assert Init(a + [sep] + b) == a + [sep] + Init(b);
      ExtendLocal(Split(a, sep), Split(Init(b), sep), Last(b), sep);
    }
  }

  /** The pieces hold no separator. */
  lemma {:induction false} SplitPiecesClean<T>(s: seq<T>, sep: T)
    ensures forall i :: 0 <= i < |Split(s, sep)| ==> sep !in Split(s, sep)[i]
  {
    if s != [] {
      SplitPiecesClean(Init(s), sep);
    }
  }

  function Concat<T>(chunks: seq<seq<T>>): seq<T> {
    if chunks == [] then [] else chunks[0] + Concat(chunks[1..])
  }

  function Join<T>(pieces: seq<seq<T>>, sep: T): seq<T>
    requires pieces != []
  {
    if |pieces| == 1 then pieces[0] else Join(Init(pieces), sep) + [sep] + Last(pieces)
  }

  lemma JoinExtend<T>(pieces: seq<seq<T>>, x: T, sep: T)
    requires pieces != []
    ensures Join(Extend(pieces, x, sep), sep) == Join(pieces, sep) + [x]
  {
    var before, last := Init(pieces), Last(pieces);
    assert pieces == before + [last];
    if x == sep {
      assert Init(pieces + [[]]) == pieces;
      assert Join(pieces, sep) + [sep] + [] == Join(pieces, sep) + [sep];
    } else {
      var extended := before + [last + [x]];
      assert Init(extended) == before && Last(extended) == last + [x];
      if before != [] {
        assert Join(before, sep) + [sep] + (last + [x]) == Join(before, sep) + [sep] + last + [x];
      }
    }
  }

  /** Splitting loses nothing: joining the pieces gives the sequence back. */
  lemma {:induction false} JoinSplit<T>(s: seq<T>, sep: T)
    ensures Join(Split(s, sep), sep) == s
  {
    if s != [] {
      var init, last := Init(s), Last(s);
      assert s == init + [last];
      JoinSplit(init, sep);
      JoinExtend(Split(init, sep), last, sep);
    }
  }
}
