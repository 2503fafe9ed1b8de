/**
 * The paragraph split both document processors apply to their text: a split on the two
 * separators CR LF CR LF and LF LF, in that order, that drops empty entries.
 * The text is scanned left to right; at each position the separators are tried in array
 * order, a match ends the current piece and is skipped, and empty pieces are dropped.
 */
module Paragraphs {
  import opened Strings

  const CrLfCrLf: string := "\r\n\r\n"
  const LfLf: string := "\n\n"

  predicate AtSeparator(s: string)
  {
    StartsWith(s, CrLfCrLf) || StartsWith(s, LfLf)
  }

  /** The pieces of s, the first of which continues the piece cur already scanned. */
  function Pieces(s: string, cur: string): (r: seq<string>)
    ensures |r| > 0
    decreases |s|
  {
    if |s| == 0 then [cur]
    else if StartsWith(s, CrLfCrLf) then [cur] + Pieces(s[4..], "")
    else if StartsWith(s, LfLf) then [cur] + Pieces(s[2..], "")
    else Pieces(s[1..], cur + [s[0]])
  }

  /** The non-empty pieces, in order. */
  function RemoveEmpty(xs: seq<string>): (r: seq<string>)
    ensures forall i :: 0 <= i < |r| ==> |r[i]| > 0
    ensures |r| <= |xs|
  {
    if |xs| == 0 then []
    else if |xs[0]| == 0 then RemoveEmpty(xs[1..])
    else [xs[0]] + RemoveEmpty(xs[1..])
  }

  /** Exactly the non-empty pieces are kept. */
  lemma {:induction false} RemoveEmptyMembers(xs: seq<string>)
    ensures forall p :: p in RemoveEmpty(xs) <==> p in xs && |p| > 0
    decreases |xs|
  {
    if |xs| > 0 {
      RemoveEmptyMembers(xs[1..]);
      assert xs == [xs[0]] + xs[1..];
    }
  }

  /** Dropping the empty pieces keeps order: it commutes with concatenation. */
  lemma {:induction false} RemoveEmptyConcat(a: seq<string>, b: seq<string>)
    ensures RemoveEmpty(a + b) == RemoveEmpty(a) + RemoveEmpty(b)
    decreases |a|
  {
    if |a| == 0 {
      assert a + b == b;
    } else {
      assert (a + b)[0] == a[0];
      assert (a + b)[1..] == a[1..] + b;
      RemoveEmptyConcat(a[1..], b);
    }
  }

  /** The paragraphs of a text, in order. */
  function Split(s: string): seq<string>
  {
    RemoveEmpty(Pieces(s, ""))
  }

  /** No separator starts anywhere inside p. */
  predicate NoSeparatorIn(p: string)
  {
    forall i :: 0 <= i <= |p| ==> !AtSeparator(p[i..])
  }

  /** The text is nothing but separators: the split finds no paragraph in it. */
  predicate OnlySeparators(s: string)
    decreases |s|
  {
    if |s| == 0 then true
    else if StartsWith(s, CrLfCrLf) then OnlySeparators(s[4..])
    else if StartsWith(s, LfLf) then OnlySeparators(s[2..])
    else false
  }

  /** While scanning, no separator started at any position of the current piece. */
  ghost predicate CleanPrefix(cur: string, s: string)
  {
    forall i :: 0 <= i < |cur| ==> !AtSeparator((cur + s)[i..])
  }

  lemma {:induction false} PiecesHaveNoSeparator(s: string, cur: string)
    requires CleanPrefix(cur, s)
    ensures forall k :: 0 <= k < |Pieces(s, cur)| ==> NoSeparatorIn(Pieces(s, cur)[k])
    decreases |s|
  {
    var r := Pieces(s, cur);
    if |s| == 0 {
      PieceEndsClean(cur, s);
    } else if StartsWith(s, CrLfCrLf) {
      PieceEndsClean(cur, s);
      PiecesHaveNoSeparator(s[4..], "");
      assert r == [cur] + Pieces(s[4..], "");
    } else if StartsWith(s, LfLf) {
      PieceEndsClean(cur, s);
      PiecesHaveNoSeparator(s[2..], "");
      assert r == [cur] + Pieces(s[2..], "");
    } else {
      var cur' := cur + [s[0]];
      assert cur' + s[1..] == cur + s;
      forall i | 0 <= i < |cur'|
        ensures !AtSeparator((cur' + s[1..])[i..])
      {
        if i == |cur| {
          assert (cur + s)[i..] == s;
        }
      }
      PiecesHaveNoSeparator(s[1..], cur');
    }
  }

  /** A piece that ends at a separator or at the end of the text has no separator inside. */
  lemma PieceEndsClean(cur: string, s: string)
    requires CleanPrefix(cur, s)
    requires |s| == 0 || AtSeparator(s)
    ensures NoSeparatorIn(cur)
  {
    forall i | 0 <= i <= |cur|
      ensures !AtSeparator(cur[i..])
    {
      if i == |cur| {
        assert cur[i..] == [];
      } else {
        assert (cur + s)[i..] == cur[i..] + s;
        StartsWithExtend(cur[i..], s, CrLfCrLf);
        StartsWithExtend(cur[i..], s, LfLf);
      }
    }
  }

  lemma StartsWithExtend(a: string, b: string, prefix: string)
    ensures StartsWith(a, prefix) ==> StartsWith(a + b, prefix)
  {
    if StartsWith(a, prefix) {
      assert (a + b)[..|prefix|] == a[..|prefix|];
    }
  }

  lemma {:induction false} RemoveEmptyKeeps(xs: seq<string>, P: string -> bool)
    requires forall k :: 0 <= k < |xs| ==> P(xs[k])
    ensures forall k :: 0 <= k < |RemoveEmpty(xs)| ==> P(RemoveEmpty(xs)[k])
  {
    if |xs| > 0 {
      RemoveEmptyKeeps(xs[1..], P);
    }
  }

  /** Every paragraph is non-empty and contains neither "\r\n\r\n" nor "\n\n". */
  lemma SplitWellFormed(s: string)
    ensures forall k :: 0 <= k < |Split(s)| ==> |Split(s)[k]| > 0 && NoSeparatorIn(Split(s)[k])
  {
    PiecesHaveNoSeparator(s, "");
    RemoveEmptyKeeps(Pieces(s, ""), NoSeparatorIn);
  }

  /** A text without separators scans as one piece. */
  lemma {:induction false} PiecesWithoutSeparator(s: string, cur: string)
    requires NoSeparatorIn(s)
    ensures Pieces(s, cur) == [cur + s]
    decreases |s|
  {
    if |s| == 0 {
      assert cur + s == cur;
    } else {
      assert s[0..] == s;
      var t := s[1..];
      forall i | 0 <= i <= |t|
        ensures !AtSeparator(t[i..])
      {
        assert t[i..] == s[i + 1..];
      }
      PiecesWithoutSeparator(t, cur + [s[0]]);
      assert cur + [s[0]] + t == cur + s;
    }
  }

  /** A text is its own single paragraph exactly when it is non-empty and has no separator in it. */
  lemma SplitSingle(s: string)
    ensures Split(s) == [s] <==> s != "" && NoSeparatorIn(s)
  {
    if s != "" && NoSeparatorIn(s) {
      PiecesWithoutSeparator(s, "");
      assert "" + s == s;
    }
    if Split(s) == [s] {
      SplitWellFormed(s);
      assert Split(s)[0] == s;
    }
  }

  lemma {:induction false} FirstPieceExtends(s: string, cur: string)
    ensures |Pieces(s, cur)[0]| >= |cur|
    decreases |s|
  {
    if |s| > 0 && !StartsWith(s, CrLfCrLf) && !StartsWith(s, LfLf) {
      FirstPieceExtends(s[1..], cur + [s[0]]);
    }
  }

  predicate AllEmpty(xs: seq<string>)
  {
    forall k :: 0 <= k < |xs| ==> xs[k] == ""
  }

  lemma {:induction false} RemoveEmptyIsEmpty(xs: seq<string>)
    ensures RemoveEmpty(xs) == [] <==> AllEmpty(xs)
  {
    if |xs| > 0 {
      RemoveEmptyIsEmpty(xs[1..]);
      AllEmptyCons(xs[0], xs[1..]);
      assert xs == [xs[0]] + xs[1..];
    }
  }

  lemma {:induction false} PiecesAllEmpty(s: string, cur: string)
    ensures AllEmpty(Pieces(s, cur)) <==> cur == "" && OnlySeparators(s)
    decreases |s|
  {
    if |s| == 0 {
      assert Pieces(s, cur) == [cur];
    } else if StartsWith(s, CrLfCrLf) {
      PiecesAllEmpty(s[4..], "");
      AllEmptyCons(cur, Pieces(s[4..], ""));
    } else if StartsWith(s, LfLf) {
      PiecesAllEmpty(s[2..], "");
      AllEmptyCons(cur, Pieces(s[2..], ""));
    } else {
      FirstPieceExtends(s[1..], cur + [s[0]]);
      assert Pieces(s, cur)[0] != "";
    }
  }

  lemma AllEmptyCons(cur: string, t: seq<string>)
    ensures AllEmpty([cur] + t) <==> cur == "" && AllEmpty(t)
  {
    var r := [cur] + t;
    if AllEmpty(r) {
      assert r[0] == cur;
      forall k | 0 <= k < |t|
        ensures t[k] == ""
      {
        assert t[k] == r[k + 1];
      }
    }
    if cur == "" && AllEmpty(t) {
      forall k | 0 <= k < |r|
        ensures r[k] == ""
      {
        if k > 0 {
          assert r[k] == t[k - 1];
        }
      }
    }
  }

  /** The split finds no paragraph exactly when the text is made of separators only (the empty text included). */
  lemma SplitEmptyIff(s: string)
    ensures Split(s) == [] <==> OnlySeparators(s)
  {
    RemoveEmptyIsEmpty(Pieces(s, ""));
    PiecesAllEmpty(s, "");
  }
}
