/**
 * The JavaScript string primitives the core relies on: white space as
 * `trim()` and the regular expression `\s` see it, ASCII lower-casing,
 * substring search (`includes`), trimming, splitting on white space, and
 * the UTF-16 length that `.length` reports.
 */
module Text {

  /** The characters JavaScript counts as WhiteSpace or LineTerminator. */
  predicate IsWhitespace(c: char) {
    || c == '\t' || c == '\n' || c == '\U{000B}' || c == '\U{000C}' || c == '\r' || c == ' '
    || c == '\U{00A0}' || c == '\U{1680}' || ('\U{2000}' <= c <= '\U{200A}')
    || c == '\U{2028}' || c == '\U{2029}' || c == '\U{202F}' || c == '\U{205F}'
    || c == '\U{3000}' || c == '\U{FEFF}'
  }

  /** True when no character of `s` is white space. */
  ghost predicate NoWhitespace(s: string) {
    forall i :: 0 <= i < |s| ==> !IsWhitespace(s[i])
  }

  /** True when every character of `s` is white space (vacuously for ""). */
  ghost predicate AllWhitespace(s: string) {
    forall i :: 0 <= i < |s| ==> IsWhitespace(s[i])
  }

  // ---------------------------------------------------------------------
  // Lower-casing (ASCII case folding; every keyword of the core is ASCII)
  // ---------------------------------------------------------------------

  predicate IsAsciiUpper(c: char) {
    'A' <= c <= 'Z'
  }

  function LowerChar(c: char): (d: char)
    ensures !IsAsciiUpper(d)
    ensures IsAsciiUpper(c) ==> d as int == c as int + 32
    ensures !IsAsciiUpper(c) ==> d == c
  {
    if IsAsciiUpper(c) then (c as int + 32) as char else c
  }

  /** `s.toLowerCase()` restricted to ASCII letters. */
  function ToLower(s: string): (r: string)
    ensures |r| == |s|
    ensures forall i :: 0 <= i < |s| ==> r[i] == LowerChar(s[i])
    ensures forall i :: 0 <= i < |r| ==> !IsAsciiUpper(r[i])
    decreases |s|
  {
    if s == [] then [] else [LowerChar(s[0])] + ToLower(s[1..])
  }

  /** Lower-casing twice is lower-casing once. */
  lemma ToLowerIdempotent(s: string)
    ensures ToLower(ToLower(s)) == ToLower(s)
  {
    var t := ToLower(s);
    assert forall i :: 0 <= i < |t| ==> ToLower(t)[i] == t[i];
  }

  // ---------------------------------------------------------------------
  // Substring search
  // ---------------------------------------------------------------------

  /** `word` occurs in `text` starting at position `i`. */
  ghost predicate OccursAt(text: string, word: string, i: int) {
    0 <= i && i + |word| <= |text| && text[i..i + |word|] == word
  }

  /** `text.includes(word)`: a raw substring test, with no notion of word boundaries. */
  function Contains(text: string, word: string): (found: bool)
    ensures found <==> exists i :: OccursAt(text, word, i)
    decreases |text|
  {
    if |word| > |text| then
      false
    else if text[..|word|] == word then
      assert OccursAt(text, word, 0);
      true
    else
      var rest := Contains(text[1..], word);
      assert forall i :: OccursAt(text[1..], word, i) <==> OccursAt(text, word, i + 1) by {
        forall i ensures OccursAt(text[1..], word, i) <==> OccursAt(text, word, i + 1) {
          if 0 <= i && i + |word| <= |text| - 1 {
            assert text[1..][i..i + |word|] == text[i + 1..i + 1 + |word|];
          }
        }
      }
      assert !OccursAt(text, word, 0);
      assert forall i :: OccursAt(text, word, i) && i != 0 ==> OccursAt(text[1..], word, i - 1);
      rest
  }

  /** A word found inside a piece of the text is found in the whole text. */
  lemma ContainsInContext(before: string, middle: string, after: string, word: string)
    requires Contains(middle, word)
    ensures Contains(before + middle + after, word)
  {
    var i :| OccursAt(middle, word, i);
    var whole := before + middle + after;
    assert whole[|before| + i..|before| + i + |word|] == middle[i..i + |word|];
    assert OccursAt(whole, word, |before| + i);
  }

  // ---------------------------------------------------------------------
  // trim()
  // ---------------------------------------------------------------------

  /** Drops leading white space. */
  function TrimStart(s: string): (r: string)
    ensures |r| <= |s| && r == s[|s| - |r|..]
    ensures forall i :: 0 <= i < |s| - |r| ==> IsWhitespace(s[i])
    ensures r == [] || !IsWhitespace(r[0])
    decreases |s|
  {
    if s != [] && IsWhitespace(s[0]) then TrimStart(s[1..]) else s
  }

  /** Drops trailing white space. */
  function TrimEnd(s: string): (r: string)
    ensures |r| <= |s| && r == s[..|r|]
    ensures forall i :: |r| <= i < |s| ==> IsWhitespace(s[i])
    ensures r == [] || !IsWhitespace(r[|r| - 1])
    decreases |s|
  {
    if s != [] && IsWhitespace(s[|s| - 1]) then TrimEnd(s[..|s| - 1]) else s
  }

  /** `s.trim()`: neither starts nor ends with white space. */
  function Trim(s: string): (r: string)
    ensures |r| <= |s|
    ensures r == [] || (!IsWhitespace(r[0]) && !IsWhitespace(r[|r| - 1]))
  {
    TrimEnd(TrimStart(s))
  }

  /** `r` is the slice of `s` from `i`, with only white space before and after it. */
  ghost predicate PaddedSlice(s: string, r: string, i: nat) {
    && i + |r| <= |s| && r == s[i..i + |r|]
    && AllWhitespace(s[..i]) && AllWhitespace(s[i + |r|..])
  }

  /**
   * What `trim()` returns is the slice of `s` that starts after the leading
   * white space, with only white space after it.
   */
  lemma {:induction false} TrimIsSlice(s: string)
    ensures PaddedSlice(s, Trim(s), |s| - |TrimStart(s)|)
  {
    var t := TrimStart(s);
    assert Trim(s) == TrimEnd(t);
    SliceInWhitespace(s, t, TrimEnd(t));
  }

  /** A prefix of a suffix that leaves only white space on either side. */
  lemma {:induction false} SliceInWhitespace(s: string, t: string, r: string)
    requires |t| <= |s| && t == s[|s| - |t|..]
    requires forall k :: 0 <= k < |s| - |t| ==> IsWhitespace(s[k])
    requires |r| <= |t| && r == t[..|r|]
    requires forall k :: |r| <= k < |t| ==> IsWhitespace(t[k])
    ensures PaddedSlice(s, r, |s| - |t|)
  {
    var i := |s| - |t|;
    assert s[i + |r|..] == t[|r|..];
  }

  /** Trimming leaves nothing exactly when the string is all white space. */
  lemma TrimEmptyIff(s: string)
    ensures Trim(s) == [] <==> AllWhitespace(s)
  {
  }

  // ---------------------------------------------------------------------
  // split(/\s+/) followed by filter(Boolean)
  // ---------------------------------------------------------------------

  /**
   * The pieces between white-space characters, in order; two adjacent
   * white-space characters, or one at either end, produce an empty piece.
   * After removing the empty pieces this gives the same words as splitting
   * on the regular expression `\s+`.
   */
  function SplitOnWhitespace(s: string): (pieces: seq<string>)
    ensures |pieces| >= 1
    ensures forall k :: 0 <= k < |pieces| ==> NoWhitespace(pieces[k])
    decreases |s|
  {
    if s == [] then [""] else Prepend(s[0], SplitOnWhitespace(s[1..]))
  }

  /**
   * The pieces of `[c] + t` from the pieces of `t`: a white-space `c` starts
   * a new, empty piece; any other `c` joins the front of the first piece.
   */
  function Prepend(c: char, pieces: seq<string>): (r: seq<string>)
    requires |pieces| >= 1
    ensures |r| >= 1
  {
    if IsWhitespace(c) then [""] + pieces else [[c] + pieces[0]] + pieces[1..]
  }

  /** Prepending a character only touches the first pieces. */
  lemma PrependAppend(c: char, left: seq<string>, right: seq<string>)
    requires |left| >= 1
    ensures Prepend(c, left + right) == Prepend(c, left) + right
  {
    if !IsWhitespace(c) {
      assert (left + right)[1..] == left[1..] + right;
    }
  }

  /** `filter(Boolean)` on strings: keep the non-empty ones, in order. */
  function NonEmpty(pieces: seq<string>): (r: seq<string>)
    ensures |r| <= |pieces|
    ensures forall k :: 0 <= k < |r| ==> r[k] != "" && r[k] in pieces
    ensures forall p :: p in pieces && p != "" ==> p in r
    ensures multiset(r) == multiset(pieces)["" := 0]
    decreases |pieces|
  {
    if pieces == [] then
      []
    else
      assert pieces == [pieces[0]] + pieces[1..];
      if pieces[0] == "" then NonEmpty(pieces[1..]) else [pieces[0]] + NonEmpty(pieces[1..])
  }

  /** The words of `s`: its maximal runs of non-white-space characters. */
  function Words(s: string): (ws: seq<string>)
    ensures forall k :: 0 <= k < |ws| ==> ws[k] != "" && NoWhitespace(ws[k])
  {
    NonEmpty(SplitOnWhitespace(s))
  }

  lemma {:induction false} NonEmptyAppend(a: seq<string>, b: seq<string>)
    ensures NonEmpty(a + b) == NonEmpty(a) + NonEmpty(b)
    decreases |a|
  {
    if a != [] {
      assert (a + b)[0] == a[0];
      assert (a + b)[1..] == a[1..] + b;
      NonEmptyAppend(a[1..], b);
      if a[0] != "" {
        assert [a[0]] + NonEmpty(a[1..]) + NonEmpty(b) == [a[0]] + (NonEmpty(a[1..]) + NonEmpty(b));
      }
    } else {
      assert a + b == b;
    }
  }

  /** Splitting at one white-space character splits the pieces on either side. */
  lemma {:induction false} SplitAround(a: string, c: char, b: string)
    requires IsWhitespace(c)
    ensures SplitOnWhitespace(a + [c] + b) == SplitOnWhitespace(a) + SplitOnWhitespace(b)
    decreases |a|
  {
    var s := a + [c] + b;
    if a == [] {
      assert s[0] == c && s[1..] == b;
    } else {
      assert s[0] == a[0] && s[1..] == a[1..] + [c] + b;
      SplitAround(a[1..], c, b);
      PrependAppend(a[0], SplitOnWhitespace(a[1..]), SplitOnWhitespace(b));
    }
  }

  /** A string without white space is a single piece. */
  lemma {:induction false} SplitSolid(s: string)
    requires NoWhitespace(s)
    ensures SplitOnWhitespace(s) == [s]
    decreases |s|
  {
    if s != [] {
      SplitSolid(s[1..]);
      assert [s[0]] + s[1..] == s;
    }
  }

  /** Leading white space contributes no word. */
  lemma {:induction false} WordsTrimStart(s: string)
    ensures Words(TrimStart(s)) == Words(s)
    decreases |s|
  {
    if s != [] && IsWhitespace(s[0]) {
      WordsTrimStart(s[1..]);
      NonEmptyAppend([""], SplitOnWhitespace(s[1..]));
    }
  }

  /** Trailing white space contributes no word. */
  lemma {:induction false} WordsTrimEnd(s: string)
    ensures Words(TrimEnd(s)) == Words(s)
    decreases |s|
  {
    if s != [] && IsWhitespace(s[|s| - 1]) {
      var init := s[..|s| - 1];
      WordsTrimEnd(init);
      assert s == init + [s[|s| - 1]];
      WordsSnocWhitespace(init, s[|s| - 1]);
    }
  }

  /** One trailing white-space character adds no word. */
  lemma WordsSnocWhitespace(a: string, c: char)
    requires IsWhitespace(c)
    ensures Words(a + [c]) == Words(a)
  {
    assert a + [c] == a + [c] + [];
    SplitAround(a, c, []);
    NonEmptyAppend(SplitOnWhitespace(a), [""]);
  }

  /** Trimming never changes the words. */
  lemma WordsTrim(s: string)
    ensures Words(Trim(s)) == Words(s)
  {
    WordsTrimStart(s);
    WordsTrimEnd(TrimStart(s));
  }

  /** A string has no words exactly when it is all white space. */
  lemma {:induction false} WordsEmptyIff(s: string)
    ensures Words(s) == [] <==> AllWhitespace(s)
    decreases |s|
  {
    if s != [] {
      WordsEmptyIff(s[1..]);
      var rest := SplitOnWhitespace(s[1..]);
      if IsWhitespace(s[0]) {
        NonEmptyAppend([""], rest);
        assert AllWhitespace(s) <==> AllWhitespace(s[1..]) by {
          if AllWhitespace(s[1..]) {
            forall i | 0 <= i < |s| ensures IsWhitespace(s[i]) {
              if i > 0 { assert s[i] == s[1..][i - 1]; }
            }
          }
        }
      } else {
        assert SplitOnWhitespace(s)[0] != "";
        assert !AllWhitespace(s);
      }
    }
  }

  // ---------------------------------------------------------------------
  // .length
  // ---------------------------------------------------------------------

  /**
   * The number of UTF-16 code units of `s`, which is what JavaScript's
   * `.length` reports: characters above U+FFFF take two.
   */
  function Utf16Length(s: string): (n: nat)
    ensures |s| <= n <= 2 * |s|
    decreases |s|
  {
    if s == [] then 0 else (if s[0] as int >= 0x1_0000 then 2 else 1) + Utf16Length(s[1..])
  }

  /**
   * `s.substring(0, n)` for a cut that does not split a surrogate pair: the
   * longest prefix of `s` that has at most `n` UTF-16 code units.
   */
  function Utf16Prefix(s: string, n: nat): (p: string)
    ensures p <= s && Utf16Length(p) <= n
    ensures p != s ==> Utf16Length(s[..|p| + 1]) > n
    decreases |s|
  {
    if s == [] then
      []
    else
      var w := if s[0] as int >= 0x1_0000 then 2 else 1;
      if w > n then
        assert s[..1][1..] == [];
        []
      else
        var rest := Utf16Prefix(s[1..], n - w);
        Utf16LengthCons(s[0], rest);
        Utf16PrefixExtends(s, rest);
        [s[0]] + rest
  }

  /** Growing a proper prefix of `s[1..]` by one character, with `s[0]` in front. */
  lemma Utf16PrefixExtends(s: string, rest: string)
    requires s != [] && rest <= s[1..]
    ensures rest != s[1..] ==>
      Utf16Length(s[..|rest| + 2]) == (if s[0] as int >= 0x1_0000 then 2 else 1) + Utf16Length(s[1..][..|rest| + 1])
  {
    if rest != s[1..] {
      assert s[..|rest| + 2] == [s[0]] + s[1..][..|rest| + 1];
      Utf16LengthCons(s[0], s[1..][..|rest| + 1]);
    }
  }

  /** One leading character adds its own code units to the length. */
  lemma Utf16LengthCons(c: char, t: string)
    ensures Utf16Length([c] + t) == (if c as int >= 0x1_0000 then 2 else 1) + Utf16Length(t)
  {
    assert ([c] + t)[1..] == t;
  }

  /** Without characters above U+FFFF the UTF-16 length is the number of characters. */
  lemma {:induction false} Utf16LengthBmp(s: string)
    requires forall i :: 0 <= i < |s| ==> s[i] as int < 0x1_0000
    ensures Utf16Length(s) == |s|
    decreases |s|
  {
    if s != [] {
      Utf16LengthBmp(s[1..]);
    }
  }

  /** Without characters above U+FFFF, code units are characters and the cut is at `n`. */
  lemma Utf16PrefixBmp(s: string, n: nat)
    requires forall i :: 0 <= i < |s| ==> s[i] as int < 0x1_0000
    ensures Utf16Prefix(s, n) == if |s| <= n then s else s[..n]
  {
    var p := Utf16Prefix(s, n);
    Utf16LengthBmp(p);
    if p != s {
      var q := s[..|p| + 1];
      assert forall i :: 0 <= i < |q| ==> q[i] == s[i];
      Utf16LengthBmp(q);
    }
  }
}
