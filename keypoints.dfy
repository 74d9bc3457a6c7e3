/** Shortening of a text to its first ten words (ExtractKeyPoints,
    internal/bot/parser.go:7-14), with the word splitting of strings.Fields
    and the joining of strings.Join that it relies on. */
module KeyPoints {

  /** The number of words kept before the text is cut. */
  const KeptWords: nat := 10

  /** The marker appended to a cut text. */
  const Ellipsis: string := "..."

  /** Go's unicode.IsSpace: the Latin-1 spaces plus the other White_Space characters. */
  predicate IsSpace(c: char) {
    c == '\t' || c == '\n' || c == '\U{000B}' || c == '\U{000C}' || c == '\r' || c == ' ' ||
    c == '\U{0085}' || c == '\U{00A0}' || c == '\U{1680}' ||
    ('\U{2000}' <= c <= '\U{200A}') ||
    c == '\U{2028}' || c == '\U{2029}' || c == '\U{202F}' || c == '\U{205F}' || c == '\U{3000}'
  }

  predicate NoSpace(s: string) {
    forall i :: 0 <= i < |s| ==> !IsSpace(s[i])
  }

  /** A word as strings.Fields yields it: non-empty and free of white space. */
  predicate Word(s: string) {
    |s| > 0 && NoSpace(s)
  }

  /** The length of the run of non-space characters at the head of `s`. */
  function WordLen(s: string): (n: nat)
    ensures n <= |s|
    ensures NoSpace(s[..n])
    ensures n < |s| ==> IsSpace(s[n])
    ensures |s| > 0 && !IsSpace(s[0]) ==> n > 0
    decreases |s|
  {
    if s == [] || IsSpace(s[0]) then 0
    else
      var m := WordLen(s[1..]);
      assert s[..m + 1] == [s[0]] + s[1..][..m];
      1 + m
  }

  /** strings.Fields: the maximal runs of non-space characters, in order. */
  function Fields(s: string): (ws: seq<string>)
    ensures forall i :: 0 <= i < |ws| ==> Word(ws[i])
    decreases |s|
  {
    if s == [] then []
    else if IsSpace(s[0]) then Fields(s[1..])
    else
      var n := WordLen(s);
      [s[..n]] + Fields(s[n..])
  }

  predicate AllSpace(s: string) {
    forall i :: 0 <= i < |s| ==> IsSpace(s[i])
  }

  /** The white-space runs around the fields of `s`: the one before the first
      field, those between consecutive fields, and the one after the last. */
  function FieldGaps(s: string): (gaps: seq<string>)
    ensures |gaps| == |Fields(s)| + 1
    decreases |s|
  {
    if s == [] then [""]
    else if IsSpace(s[0]) then
      var g := FieldGaps(s[1..]);
      [[s[0]] + g[0]] + g[1..]
    else [""] + FieldGaps(s[WordLen(s)..])
  }

  /** The gaps and the words taken in turn: gap, word, gap, ..., word, gap. */
  function Interleave(gaps: seq<string>, ws: seq<string>): string
    requires |gaps| == |ws| + 1
    decreases |ws|
  {
    if ws == [] then gaps[0]
    else gaps[0] + ws[0] + Interleave(gaps[1..], ws[1..])
  }

  /** strings.Join: the words with `sep` between consecutive ones. */
  function Join(ws: seq<string>, sep: string): string
    decreases |ws|
  {
    if ws == [] then ""
    else if |ws| == 1 then ws[0]
    else ws[0] + sep + Join(ws[1..], sep)
  }

  /** ExtractKeyPoints: a text of more than ten words becomes its first ten
      words joined by single spaces and followed by "..."; a shorter text is
      returned as it is. */
  function ExtractKeyPoints(text: string): (r: string)
    ensures |Fields(text)| <= KeptWords ==> r == text
    ensures |Fields(text)| > KeptWords ==>
      && |Fields(r)| == KeptWords
      && |r| >= |Ellipsis| && r[|r| - |Ellipsis|..] == Ellipsis
  {
    var words := Fields(text);
    if |words| > KeptWords then
      assert NoSpace(Ellipsis);
      FieldsOfJoinSuffix(words[..KeptWords], Ellipsis);
      Join(words[..KeptWords], " ") + Ellipsis
    else text
  }

  lemma {:induction false} WordLenOfWord(w: string, t: string)
    requires Word(w)
    requires t == [] || IsSpace(t[0])
    ensures WordLen(w + t) == |w|
    decreases |w|
  {
    assert (w + t)[0] == w[0];
    if |w| == 1 {
      assert (w + t)[1..] == t;
    } else {
      assert (w + t)[1..] == w[1..] + t;
      WordLenOfWord(w[1..], t);
    }
  }

  /** A word followed by white space (or nothing) is the first field. */
  lemma FieldsOfWord(w: string, t: string)
    requires Word(w)
    requires t == [] || IsSpace(t[0])
    ensures Fields(w + t) == [w] + Fields(t)
  {
    WordLenOfWord(w, t);
    assert (w + t)[0] == w[0];
    assert (w + t)[..|w|] == w;
    assert (w + t)[|w|..] == t;
  }

  /** Joining words with single spaces and appending a space-free suffix,
      then splitting again, gives the words back with the suffix glued to
      the last one. */
  lemma {:induction false} FieldsOfJoinSuffix(ws: seq<string>, suffix: string)
    requires |ws| > 0
    requires forall i :: 0 <= i < |ws| ==> Word(ws[i])
    requires NoSpace(suffix)
    ensures Fields(Join(ws, " ") + suffix) == ws[..|ws| - 1] + [ws[|ws| - 1] + suffix]
    decreases |ws|
  {
    if |ws| == 1 {
      WordWithSuffix(ws[0], suffix);
    } else {
      var tail := ws[1..];
      var rest := Join(tail, " ") + suffix;
      assert Fields(Join(ws, " ") + suffix) == [ws[0]] + Fields(rest) by {
        assert Join(ws, " ") + suffix == ws[0] + (" " + rest);
        FieldsOfWord(ws[0], " " + rest);
        FieldsOfSpace(rest);
      }
      FieldsOfJoinSuffix(tail, suffix);
      assert [ws[0]] + tail[..|tail| - 1] == ws[..|ws| - 1];
    }
  }

  /** A word with a space-free suffix is a single field. */
  lemma WordWithSuffix(w: string, suffix: string)
    requires Word(w) && NoSpace(suffix)
    ensures Fields(w + suffix) == [w + suffix]
  {
    var v := w + suffix;
    assert Word(v) by {
      forall i | 0 <= i < |v| ensures !IsSpace(v[i]) {
        if i >= |w| { assert v[i] == suffix[i - |w|]; }
      }
    }
    FieldsOfWord(v, []);
    assert v + [] == v;
  }

  /** A leading space does not start a field. */
  lemma FieldsOfSpace(x: string)
    ensures Fields(" " + x) == Fields(x)
  {
    assert (" " + x)[1..] == x;
  }

  /** `s` is its fields with white-space runs around them, and consecutive
      fields are separated by at least one white-space character. */
  predicate Rebuilds(s: string) {
    var ws := Fields(s); var gaps := FieldGaps(s);
    && Interleave(gaps, ws) == s
    && (forall i :: 0 <= i < |gaps| ==> AllSpace(gaps[i]))
    && (forall i :: 0 < i < |ws| ==> |gaps[i]| > 0)
  }

  /** Fields loses nothing but white space: the text is its fields with
      white-space runs around them, and consecutive fields are separated by
      at least one white-space character. */
  lemma {:induction false} FieldsRebuild(s: string)
    ensures var ws := Fields(s); var gaps := FieldGaps(s);
      && Interleave(gaps, ws) == s
      && (forall i :: 0 <= i < |gaps| ==> AllSpace(gaps[i]))
      && (forall i :: 0 < i < |ws| ==> |gaps[i]| > 0)
    decreases |s|
  {
    if s != [] {
      if IsSpace(s[0]) {
        FieldsRebuild(s[1..]);
        RebuildSpace(s);
      } else {
        FieldsRebuild(s[WordLen(s)..]);
        RebuildWord(s);
      }
    }
  }

  lemma RebuildSpace(s: string)
    requires s != [] && IsSpace(s[0]) && Rebuilds(s[1..])
    ensures Rebuilds(s)
  {
    var t := s[1..];
    var ws := Fields(s);
    var g := FieldGaps(t);
    var gaps := FieldGaps(s);
    assert gaps == [[s[0]] + g[0]] + g[1..];
    InterleavePrepend([s[0]], g, ws);
    assert [s[0]] + t == s;
    forall i | 0 <= i < |gaps| ensures AllSpace(gaps[i]) {
      if i == 0 {
        forall j | 0 <= j < |gaps[0]| ensures IsSpace(gaps[0][j]) {
          if j > 0 { assert gaps[0][j] == g[0][j - 1]; }
        }
      } else {
        assert gaps[i] == g[i];
      }
    }
    forall i | 0 < i < |ws| ensures |gaps[i]| > 0 {
      assert gaps[i] == g[i];
    }
  }

  lemma RebuildWord(s: string)
    requires s != [] && !IsSpace(s[0]) && Rebuilds(s[WordLen(s)..])
    ensures Rebuilds(s)
  {
    var ws := Fields(s);
    var n := WordLen(s);
    var t := s[n..];
    var wt := Fields(t);
    var g := FieldGaps(t);
    var gaps := FieldGaps(s);
    assert ws == [s[..n]] + wt;
    assert gaps == [""] + g;
    assert Interleave(gaps, ws) == s by {
      InterleaveWord(s[..n], g, wt);
      SplitAt(s, n);
    }
    assert forall i :: 0 <= i < |gaps| ==> AllSpace(gaps[i]) by {
      forall i | 0 < i < |gaps| ensures AllSpace(gaps[i]) {
        assert gaps[i] == g[i - 1];
      }
    }
    assert forall i :: 0 < i < |ws| ==> |gaps[i]| > 0 by {
      forall i | 0 < i < |ws| ensures |gaps[i]| > 0 {
        if i == 1 {
          assert t != [] && IsSpace(t[0]);
          assert g[0] == [t[0]] + FieldGaps(t[1..])[0];
        } else {
          assert gaps[i] == g[i - 1];
        }
      }
    }
  }

  lemma InterleaveWord(w: string, g: seq<string>, ws: seq<string>)
    requires |g| == |ws| + 1
    ensures Interleave([""] + g, [w] + ws) == w + Interleave(g, ws)
  {
    assert ([""] + g)[1..] == g && ([w] + ws)[1..] == ws;
    assert "" + w == w;
  }

  lemma SplitAt(s: string, n: nat)
    requires n <= |s|
    ensures s[..n] + s[n..] == s
  {
  }

  lemma InterleavePrepend(p: string, g: seq<string>, ws: seq<string>)
    requires |g| == |ws| + 1
    ensures Interleave([p + g[0]] + g[1..], ws) == p + Interleave(g, ws)
  {
    var h := [p + g[0]] + g[1..];
    assert h[1..] == g[1..];
    if ws != [] {
      assert Interleave(h, ws) == (p + g[0]) + ws[0] + Interleave(g[1..], ws[1..]);
    }
  }

  /** Round trip: splitting words joined by single spaces gives the words back. */
  lemma FieldsOfJoin(ws: seq<string>)
    requires forall i :: 0 <= i < |ws| ==> Word(ws[i])
    ensures Fields(Join(ws, " ")) == ws
  {
    if ws != [] {
      FieldsOfJoinSuffix(ws, "");
      assert Join(ws, " ") + "" == Join(ws, " ");
      assert ws[|ws| - 1] + "" == ws[|ws| - 1];
      assert ws[..|ws| - 1] + [ws[|ws| - 1]] == ws;
    }
  }

  /** A text of at most ten words is returned unchanged; a longer one
      becomes exactly ten words: the first nine words of the text and its
      tenth word with "..." attached, and it ends in "...". */
  lemma KeyPointsSpec(text: string)
    ensures |Fields(text)| <= KeptWords ==> ExtractKeyPoints(text) == text
    ensures |Fields(text)| > KeptWords ==>
      var r := ExtractKeyPoints(text); var ws := Fields(text);
      && Fields(r) == ws[..KeptWords - 1] + [ws[KeptWords - 1] + Ellipsis]
      && |Fields(r)| == KeptWords
      && |r| >= |Ellipsis| && r[|r| - |Ellipsis|..] == Ellipsis
  {
    var ws := Fields(text);
    if |ws| > KeptWords {
      var kept := ws[..KeptWords];
      assert NoSpace(Ellipsis);
      FieldsOfJoinSuffix(kept, Ellipsis);
      assert kept[..KeptWords - 1] == ws[..KeptWords - 1];
    }
  }

  /** Shortening an already shortened text changes nothing. */
  lemma KeyPointsIdempotent(text: string)
    ensures ExtractKeyPoints(ExtractKeyPoints(text)) == ExtractKeyPoints(text)
  {
    if |Fields(text)| > KeptWords {
      KeyPointsSpec(text);
    }
  }
}
