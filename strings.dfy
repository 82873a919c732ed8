/** The JavaScript string operations the application relies on, over `seq<char>`. */
module Strings {
  import opened Outcomes

  /** The characters JavaScript's `\s` and `String.prototype.trim` treat as white space
      (WhiteSpace and LineTerminator code points). */
  predicate IsWhitespace(c: char) {
    || c == ' ' || c == '\t' || c == '\n' || c == '\r' || c == '\U{000B}' || c == '\U{000C}'
    || c == '\U{00A0}' || c == '\U{1680}' || ('\U{2000}' <= c <= '\U{200A}')
    || c == '\U{2028}' || c == '\U{2029}' || c == '\U{202F}' || c == '\U{205F}'
    || c == '\U{3000}' || c == '\U{FEFF}'
  }

  /** `s.trim() === ""`: the string holds nothing but white space (the empty string included). */
  predicate IsBlank(s: string) {
    forall i :: 0 <= i < |s| ==> IsWhitespace(s[i])
  }

  predicate HasNoWhitespace(s: string) {
    forall i :: 0 <= i < |s| ==> !IsWhitespace(s[i])
  }

  /** `xs.join(sep)`; the empty list joins to "". */
  function Join(xs: seq<string>, sep: string): string {
    if |xs| == 0 then ""
    else if |xs| == 1 then xs[0]
    else xs[0] + sep + Join(xs[1..], sep)
  }

  /** The strings of `xs` one after the other. */
  function Concat(xs: seq<string>): string {
    if xs == [] then "" else xs[0] + Concat(xs[1..])
  }

  /** The characters of `s` that are not white space, in order. */
  function NonWhitespace(s: string): string {
    if s == [] then ""
    else if IsWhitespace(s[0]) then NonWhitespace(s[1..])
    else [s[0]] + NonWhitespace(s[1..])
  }

  /** The UTF-16 code units a character takes: two for one above the Basic Multilingual Plane
      (a surrogate pair), one otherwise. */
  function CodeUnits(c: char): nat {
    if c > '\U{FFFF}' then 2 else 1
  }

  /** `s.length`: JavaScript measures a string in UTF-16 code units, not in characters. */
  function Utf16Length(s: string): (r: nat)
    ensures |s| <= r <= 2 * |s|
  {
    if s == [] then 0 else CodeUnits(s[0]) + Utf16Length(s[1..])
  }

  lemma {:induction false} Utf16LengthAppend(a: string, b: string)
    ensures Utf16Length(a + b) == Utf16Length(a) + Utf16Length(b)
  {
    if a != [] {
      assert (a + b)[1..] == a[1..] + b;
      Utf16LengthAppend(a[1..], b);
    } else {
      assert a + b == b;
    }
  }

  /** Below U+10000 every character is one code unit, so `length` counts characters. */
  lemma {:induction false} Utf16LengthOfBmp(s: string)
    requires forall i :: 0 <= i < |s| ==> s[i] <= '\U{FFFF}'
    ensures Utf16Length(s) == |s|
  {
    if s != [] {
      Utf16LengthOfBmp(s[1..]);
    }
  }

  /** `s.substring(0, n)`: the first `n` characters, or all of `s` when it is shorter. */
  function Prefix(s: string, n: nat): (r: string)
    ensures |r| == if |s| <= n then |s| else n
    ensures r == s[..|r|]
  {
    if |s| <= n then s else s[..n]
  }

  /** `s.endsWith(p)`. */
  predicate EndsWith(s: string, p: string) {
    |p| <= |s| && s[|s| - |p|..] == p
  }

  /** `p` occurs in `s` starting at position `k`. */
  predicate OccursAt(s: string, p: string, k: int) {
    0 <= k && k + |p| <= |s| && s[k..k + |p|] == p
  }

  /** `s.indexOf(p)`: the first position where `p` occurs in `s`, or None for -1. */
  function IndexOf(s: string, p: string): (r: Option<nat>)
    ensures r.Some? ==> OccursAt(s, p, r.value)
    ensures r.Some? ==> forall k :: 0 <= k < r.value ==> !OccursAt(s, p, k)
    ensures r.None? ==> forall k :: !OccursAt(s, p, k)
  {
    IndexFrom(s, p, 0)
  }

  function IndexFrom(s: string, p: string, i: nat): (r: Option<nat>)
    ensures r.Some? ==> i <= r.value && OccursAt(s, p, r.value)
    ensures r.Some? ==> forall k :: i <= k < r.value ==> !OccursAt(s, p, k)
    ensures r.None? ==> forall k :: i <= k ==> !OccursAt(s, p, k)
    decreases |s| - i
  {
    if i + |p| > |s| then None
    else if s[i..i + |p|] == p then Some(i)
    else IndexFrom(s, p, i + 1)
  }

  /** `s.includes(p)`. */
  predicate Contains(s: string, p: string) {
    IndexOf(s, p).Some?
  }

  /** The leading white space of `s` removed. */
  function SkipWhitespace(s: string): (r: string)
    ensures |r| <= |s| && r == s[|s| - |r|..]
    ensures r == [] || !IsWhitespace(r[0])
    ensures IsBlank(s[..|s| - |r|])
  {
    if s != [] && IsWhitespace(s[0]) then SkipWhitespace(s[1..]) else s
  }

  /** `s.split(/\s+/)`: the pieces between maximal runs of white space. Leading or trailing
      white space yields an empty first or last piece, and "" yields [""]. */
  function Words(s: string): seq<string> {
    WordsFrom(s, "")
  }

  /** The pieces of `s` when the piece being read so far is `cur`. */
  function WordsFrom(s: string, cur: string): seq<string>
    decreases |s|
  {
    if s == [] then [cur]
    else if IsWhitespace(s[0]) then [cur] + WordsFrom(SkipWhitespace(s[1..]), "")
    else WordsFrom(s[1..], cur + [s[0]])
  }

  lemma {:induction false} ConcatAppend(xs: seq<string>, ys: seq<string>)
    ensures Concat(xs + ys) == Concat(xs) + Concat(ys)
  {
    if xs == [] {
      assert xs + ys == ys;
    } else {
      assert (xs + ys)[1..] == xs[1..] + ys;
      ConcatAppend(xs[1..], ys);
    }
  }

  lemma {:induction false} NonWhitespaceOfSkip(s: string)
    ensures NonWhitespace(SkipWhitespace(s)) == NonWhitespace(s)
  {
    if s != [] && IsWhitespace(s[0]) {
      NonWhitespaceOfSkip(s[1..]);
    }
  }

  /** Splitting loses only white space: the words, glued together, are exactly the
      non-white-space characters of the text, in order. */
  lemma WordsKeepCharacters(s: string)
    ensures |Words(s)| >= 1
    ensures Concat(Words(s)) == NonWhitespace(s)
  {
    WordsFromKeepCharacters(s, "");
  }

  lemma {:induction false} WordsFromKeepCharacters(s: string, cur: string)
    ensures |WordsFrom(s, cur)| >= 1
    ensures Concat(WordsFrom(s, cur)) == cur + NonWhitespace(s)
    decreases |s|
  {
    if s == [] {
      assert Concat([cur]) == cur + Concat([]);
    } else if IsWhitespace(s[0]) {
      var rest := SkipWhitespace(s[1..]);
      var tail := WordsFrom(rest, "");
      assert WordsFrom(s, cur) == [cur] + tail;
      WordsFromKeepCharacters(rest, "");
      NonWhitespaceOfSkip(s[1..]);
      ConcatAppend([cur], tail);
      assert Concat([cur]) == cur + Concat([]);
      assert NonWhitespace(s) == NonWhitespace(s[1..]);
      assert "" + NonWhitespace(rest) == NonWhitespace(rest);
    } else {
      assert WordsFrom(s, cur) == WordsFrom(s[1..], cur + [s[0]]);
      WordsFromKeepCharacters(s[1..], cur + [s[0]]);
      assert NonWhitespace(s) == [s[0]] + NonWhitespace(s[1..]);
      assert cur + [s[0]] + NonWhitespace(s[1..]) == cur + ([s[0]] + NonWhitespace(s[1..]));
    }
  }

  /** No word of a split contains white space. */
  lemma WordsHaveNoWhitespace(s: string)
    ensures forall w :: w in Words(s) ==> HasNoWhitespace(w)
  {
    WordsFromHaveNoWhitespace(s, "");
  }

  lemma {:induction false} WordsFromHaveNoWhitespace(s: string, cur: string)
    requires HasNoWhitespace(cur)
    ensures forall w :: w in WordsFrom(s, cur) ==> HasNoWhitespace(w)
    decreases |s|
  {
    if s == [] {
    } else if IsWhitespace(s[0]) {
      WordsFromHaveNoWhitespace(SkipWhitespace(s[1..]), "");
    } else {
      WordsFromHaveNoWhitespace(s[1..], cur + [s[0]]);
    }
  }

  lemma {:induction false} WordsFromAfterWord(w: string, t: string, cur: string)
    requires HasNoWhitespace(w)
    ensures WordsFrom(w + t, cur) == WordsFrom(t, cur + w)
    decreases |w|
  {
    if w != [] {
      assert (w + t)[1..] == w[1..] + t;
      assert cur + [w[0]] + w[1..] == cur + w;
      WordsFromAfterWord(w[1..], t, cur + [w[0]]);
    } else {
      assert w + t == t;
      assert cur + w == cur;
    }
  }

  /** `split(/\s+/)` undoes `join(' ')` on non-empty words without white space. */
  lemma {:induction false} WordsOfJoin(ws: seq<string>)
    requires |ws| >= 1
    requires forall i :: 0 <= i < |ws| ==> ws[i] != "" && HasNoWhitespace(ws[i])
    ensures Words(Join(ws, " ")) == ws
  {
    WordsFromOfJoin(ws);
  }

  lemma {:induction false} WordsFromOfJoin(ws: seq<string>)
    requires |ws| >= 1
    requires forall i :: 0 <= i < |ws| ==> ws[i] != "" && HasNoWhitespace(ws[i])
    ensures WordsFrom(Join(ws, " "), "") == ws
  {
    if |ws| == 1 {
      WordsFromAfterWord(ws[0], "", "");
      assert ws[0] + "" == ws[0];
      assert "" + ws[0] == ws[0];
    } else {
      var tail := Join(ws[1..], " ");
      WordsFromOfJoin(ws[1..]);
      assert ws[0] + " " + tail == ws[0] + (" " + tail);
      WordsFromAfterWord(ws[0], " " + tail, "");
      assert "" + ws[0] == ws[0];
      assert (" " + tail)[1..] == tail;
      JoinStartsWithFirst(ws[1..], " ");
      assert SkipWhitespace(tail) == tail;
      assert [ws[0]] + ws[1..] == ws;
    }
  }

  lemma {:induction false} JoinStartsWithFirst(xs: seq<string>, sep: string)
    requires |xs| >= 1
    ensures |xs[0]| <= |Join(xs, sep)| && Join(xs, sep)[..|xs[0]|] == xs[0]
  {
    if |xs| > 1 {
      assert Join(xs, sep) == xs[0] + (sep + Join(xs[1..], sep));
    }
  }

  /** Joining two non-empty lists puts one separator between the two joins. */
  lemma {:induction false} JoinAppend(xs: seq<string>, ys: seq<string>, sep: string)
    requires |xs| >= 1 && |ys| >= 1
    ensures Join(xs + ys, sep) == Join(xs, sep) + sep + Join(ys, sep)
  {
    if |xs| == 1 {
      assert (xs + ys)[1..] == ys;
    } else {
      assert (xs + ys)[1..] == xs[1..] + ys;
      JoinAppend(xs[1..], ys, sep);
    }
  }

  /** The length of a join: the lengths of the parts plus one separator between neighbours. */
  lemma {:induction false} JoinLength(xs: seq<string>, sep: string)
    requires |xs| >= 1
    ensures |Join(xs, sep)| == |Concat(xs)| + (|xs| - 1) * |sep|
  {
    if |xs| > 1 {
      JoinLength(xs[1..], sep);
    }
  }
  lemma {:induction false} NonWhitespaceAppend(a: string, b: string)
    ensures NonWhitespace(a + b) == NonWhitespace(a) + NonWhitespace(b)
  {
    if a == [] {
      assert a + b == b;
    } else {
      assert (a + b)[1..] == a[1..] + b;
      NonWhitespaceAppend(a[1..], b);
    }
  }

  /** A string has no non-white-space characters exactly when it is blank. */
  lemma {:induction false} NonWhitespaceEmptyIffBlank(s: string)
    ensures NonWhitespace(s) == "" <==> IsBlank(s)
  {
    if s != [] {
      NonWhitespaceEmptyIffBlank(s[1..]);
      if IsBlank(s) {
        assert IsBlank(s[1..]) by {
          forall i | 0 <= i < |s[1..]| ensures IsWhitespace(s[1..][i]) {
            assert s[1..][i] == s[i + 1];
          }
        }
      }
      if IsWhitespace(s[0]) && IsBlank(s[1..]) {
        forall i | 0 <= i < |s| ensures IsWhitespace(s[i]) {
          if i > 0 {
            assert s[i] == s[1..][i - 1];
          }
        }
      }
    }
  }

  lemma {:induction false} NonWhitespaceOfWord(w: string)
    requires HasNoWhitespace(w)
    ensures NonWhitespace(w) == w
  {
    if w != [] {
      assert HasNoWhitespace(w[1..]) by {
        forall i | 0 <= i < |w[1..]| ensures !IsWhitespace(w[1..][i]) {
          assert w[1..][i] == w[i + 1];
        }
      }
      NonWhitespaceOfWord(w[1..]);
      assert w == [w[0]] + w[1..];
    }
  }

  /** Joining white-space-free words with a blank separator adds no visible character. */
  lemma {:induction false} NonWhitespaceOfJoin(ws: seq<string>, sep: string)
    requires |ws| >= 1
    requires IsBlank(sep)
    requires forall i :: 0 <= i < |ws| ==> HasNoWhitespace(ws[i])
    ensures NonWhitespace(Join(ws, sep)) == Concat(ws)
  {
    NonWhitespaceOfWord(ws[0]);
    NonWhitespaceEmptyIffBlank(sep);
    if |ws| == 1 {
      assert Concat(ws) == ws[0] + Concat([]);
    } else {
      NonWhitespaceOfJoin(ws[1..], sep);
      NonWhitespaceAppend(ws[0] + sep, Join(ws[1..], sep));
      NonWhitespaceAppend(ws[0], sep);
    }
  }

  /** Blank parts joined by a blank separator give a blank string. */
  lemma {:induction false} JoinBlank(ws: seq<string>, sep: string)
    requires IsBlank(sep)
    requires forall i :: 0 <= i < |ws| ==> IsBlank(ws[i])
    ensures IsBlank(Join(ws, sep))
  {
    if |ws| > 1 {
      JoinBlank(ws[1..], sep);
      var j := Join(ws[1..], sep);
      forall i | 0 <= i < |ws[0] + sep + j| ensures IsWhitespace((ws[0] + sep + j)[i]) {
        if i < |ws[0]| {
        } else if i < |ws[0]| + |sep| {
          assert (ws[0] + sep + j)[i] == sep[i - |ws[0]|];
        } else {
          assert (ws[0] + sep + j)[i] == j[i - |ws[0]| - |sep|];
        }
      }
    }
  }

  /** Strings that glue together to nothing are all empty. */
  lemma {:induction false} ConcatEmpty(xs: seq<string>)
    requires Concat(xs) == ""
    ensures forall i :: 0 <= i < |xs| ==> xs[i] == ""
  {
    if xs != [] {
      ConcatEmpty(xs[1..]);
      forall i | 0 <= i < |xs| ensures xs[i] == "" {
        if i > 0 {
          assert xs[i] == xs[1..][i - 1];
        }
      }
    }
  }
  /** `s.split(sep)[1]` for a non-empty `sep`: the text between the first and the second
      occurrence of `sep` (or the end), and None (`undefined`) when `sep` does not occur. */
  function SecondPiece(s: string, sep: string): (r: Option<string>)
    requires |sep| > 0
    ensures r.None? <==> !Contains(s, sep)
  {
    match IndexOf(s, sep)
    case None => None
    case Some(k) =>
      var rest := s[k + |sep|..];
      match IndexOf(rest, sep)
      case None => Some(rest)
      case Some(j) => Some(rest[..j])
  }

  /** The piece after a separator that occurs once, at the end of `head`, is the whole tail. */
  lemma SecondPieceOfSingle(head: string, sep: string, tail: string)
    requires |sep| > 0
    requires forall k :: 0 <= k < |head| ==> !OccursAt(head + sep + tail, sep, k)
    requires forall k :: !OccursAt(tail, sep, k)
    ensures SecondPiece(head + sep + tail, sep) == Some(tail)
  {
    var s := head + sep + tail;
    assert OccursAt(s, sep, |head|) by {
      assert s[|head|..|head| + |sep|] == sep;
    }
    assert IndexOf(s, sep) == Some(|head|);
    assert s[|head| + |sep|..] == tail;
  }

  /** Without a second occurrence the piece runs to the end; with one it stops there. */
  lemma SecondPieceBounds(s: string, sep: string)
    requires |sep| > 0 && Contains(s, sep)
    ensures var k := IndexOf(s, sep).value;
      && k + |sep| + |SecondPiece(s, sep).value| <= |s|
      && SecondPiece(s, sep).value == s[k + |sep|..k + |sep| + |SecondPiece(s, sep).value|]
      && forall p :: k + |sep| <= p < k + |sep| + |SecondPiece(s, sep).value| ==> !OccursAt(s, sep, p)
  {
    var k := IndexOf(s, sep).value;
    var a := k + |sep|;
    var rest := s[a..];
    var piece := SecondPiece(s, sep).value;
    assert piece == rest[..|piece|];
    assert rest[..|piece|] == s[a..a + |piece|];
    forall p | a <= p < a + |piece| ensures !OccursAt(s, sep, p) {
      OccursShift(s, sep, a, p - a);
    }
  }

  /** The piece never contains the separator. */
  lemma SecondPieceHasNoSeparator(s: string, sep: string)
    requires |sep| > 0 && Contains(s, sep)
    ensures !Contains(SecondPiece(s, sep).value, sep)
  {
    var k := IndexOf(s, sep).value;
    var a := k + |sep|;
    var piece := SecondPiece(s, sep).value;
    SecondPieceBounds(s, sep);
    forall j ensures !OccursAt(piece, sep, j) {
      if 0 <= j && j + |sep| <= |piece| {
        OccursInSlice(s, sep, a, a + |piece|, j);
        assert !OccursAt(s, sep, a + j);
      }
    }
  }

  /** An occurrence in a suffix is an occurrence in the whole string, shifted. */
  lemma OccursShift(s: string, p: string, d: nat, j: nat)
    requires d <= |s|
    ensures OccursAt(s[d..], p, j) <==> OccursAt(s, p, d + j)
  {
    if j + |p| <= |s| - d {
      var t := s[d..][j..j + |p|];
      forall i | 0 <= i < |p| ensures t[i] == s[d + j + i] {}
      assert t == s[d + j..d + j + |p|];
    }
  }

  /** An occurrence in a slice is an occurrence in the whole string, shifted. */
  lemma OccursInSlice(s: string, p: string, a: nat, b: nat, j: nat)
    requires a <= b <= |s|
    ensures OccursAt(s[a..b], p, j) ==> OccursAt(s, p, a + j)
  {
    if j + |p| <= b - a {
      var t := s[a..b][j..j + |p|];
      forall i | 0 <= i < |p| ensures t[i] == s[a + j + i] {}
      assert t == s[a + j..a + j + |p|];
    }
  }
}
