/** The JavaScript string built-ins the server relies on, on `seq<char>`:
    `startsWith`, `includes`, `split` with a one-character separator, `trim`,
    the quote-stripping regular-expression replacement and `toLowerCase`
    (ASCII letters only). */
module JsString {

  // ---------------------------------------------------------------------------
  // startsWith and includes
  // ---------------------------------------------------------------------------

  /** `s.startsWith(p)`. */
  predicate StartsWith(s: string, p: string)
  {
    |p| <= |s| && s[..|p|] == p
  }

  /** `startsWith` holds exactly when `s` is `p` followed by the rest of `s`. */
  lemma StartsWithConcat(s: string, p: string)
    ensures StartsWith(s, p) <==> |p| <= |s| && s == p + s[|p|..]
  {
    if |p| <= |s| {
      assert s == s[..|p|] + s[|p|..];
    }
  }

  /** `s.includes(t)`: `t` occurs in `s` at some position. */
  predicate Includes(s: string, t: string)
    decreases |s|
  {
    StartsWith(s, t) || (|s| > 0 && Includes(s[1..], t))
  }

  /** `includes` holds exactly when `t` occurs at some index of `s` (first direction). */
  lemma {:induction false} IncludesAt(s: string, t: string, i: nat)
    requires i + |t| <= |s| && s[i..i + |t|] == t
    ensures Includes(s, t)
    decreases i
  {
    if i == 0 {
      assert s[..|t|] == t;
    } else {
      assert s[1..][i - 1..i - 1 + |t|] == s[i..i + |t|];
      IncludesAt(s[1..], t, i - 1);
    }
  }

  /** `includes` holds exactly when `t` occurs at some index of `s` (second direction). */
  lemma {:induction false} IncludesWitness(s: string, t: string) returns (i: nat)
    requires Includes(s, t)
    ensures i + |t| <= |s| && s[i..i + |t|] == t
    decreases |s|
  {
    if StartsWith(s, t) {
      i := 0;
    } else {
      var j := IncludesWitness(s[1..], t);
      assert s[1..][j..j + |t|] == s[j + 1..j + 1 + |t|];
      i := j + 1;
    }
  }

  /** A string always includes each of its prefixes. */
  lemma IncludesPrefix(t: string, u: string)
    ensures Includes(t + u, t)
  {
    assert (t + u)[..|t|] == t;
  }

  /** If one character of `t` never occurs in `s`, then `s` does not include `t`. */
  lemma {:induction false} NotIncludesMissingChar(s: string, t: string, k: nat)
    requires k < |t| && t[k] !in s
    ensures !Includes(s, t)
    decreases |s|
  {
    if |s| > 0 {
      assert forall j :: 0 <= j < |s[1..]| ==> s[1..][j] == s[j + 1];
      NotIncludesMissingChar(s[1..], t, k);
    }
  }

  /** Proof step only: a string none of whose characters is `x` or `y`
      contains neither. */
  lemma LacksBoth(s: string, x: char, y: char)
    requires forall i | 0 <= i < |s| :: s[i] != x && s[i] != y
    ensures x !in s && y !in s
  {
  }

  // ---------------------------------------------------------------------------
  // split with a one-character separator
  // ---------------------------------------------------------------------------

  /** The index of the first `c` in `s`, or `|s|` when there is none. */
  function IndexOf(s: string, c: char): (i: nat)
    ensures i <= |s|
    ensures i < |s| ==> s[i] == c
    ensures c !in s[..i]
    decreases |s|
  {
    if |s| == 0 || s[0] == c then 0 else 1 + IndexOf(s[1..], c)
  }

  /** The number of occurrences of `c` in `s`. */
  function CountChar(s: string, c: char): nat
    decreases |s|
  {
    if |s| == 0 then 0 else (if s[0] == c then 1 else 0) + CountChar(s[1..], c)
  }

  // Proof step only: `CountChar` of a string with a known first character.
  lemma CountCharCons(x: char, rest: string, c: char)
    ensures CountChar([x] + rest, c) == (if x == c then 1 else 0) + CountChar(rest, c)
  {
    assert ([x] + rest)[1..] == rest;
  }

  /** `s.split(c)` for a one-character string `c`: the maximal runs of
      characters other than `c`, in order, including empty ones; the empty
      string splits into one empty part. */
  function Split(s: string, c: char): (parts: seq<string>)
    ensures |parts| >= 1
    ensures forall k :: 0 <= k < |parts| ==> c !in parts[k]
    decreases |s|
  {
    var i := IndexOf(s, c);
    if i == |s| then
      [s]
    else
      [s[..i]] + Split(s[i + 1..], c)
  }

  /** There is a single part exactly when the separator does not occur. */
  lemma SplitSingle(s: string, c: char)
    ensures (|Split(s, c)| == 1) == (c !in s)
  {
    if IndexOf(s, c) == |s| {
      assert s[..|s|] == s;
    } else {
      assert s[IndexOf(s, c)] == c;
    }
  }

  /** The first part is the text before the first separator. */
  lemma SplitFirst(s: string, c: char)
    ensures Split(s, c)[0] == s[..IndexOf(s, c)]
  {
    if IndexOf(s, c) == |s| {
      assert s[..|s|] == s;
    }
  }

  /** `parts.join(c)`: the inverse of `Split`. */
  function Join(parts: seq<string>, c: char): string
    requires |parts| >= 1
  {
    if |parts| == 1 then parts[0] else parts[0] + [c] + Join(parts[1..], c)
  }

  lemma {:induction false} CountCharAbsent(s: string, c: char)
    requires c !in s
    ensures CountChar(s, c) == 0
    decreases |s|
  {
    if |s| > 0 {
      assert c !in s[1..] by {
        assert forall j :: 0 <= j < |s[1..]| ==> s[1..][j] == s[j + 1];
      }
      CountCharAbsent(s[1..], c);
    }
  }

  lemma {:induction false} CountCharSkip(s: string, c: char)
    requires IndexOf(s, c) < |s|
    ensures CountChar(s, c) == 1 + CountChar(s[IndexOf(s, c) + 1..], c)
    decreases |s|
  {
    if s[0] != c {
      CountCharSkip(s[1..], c);
      assert s[1..][IndexOf(s[1..], c) + 1..] == s[IndexOf(s, c) + 1..];
    }
  }

  /** One step of the split: the first separator ends the first part and
      accounts for one `c`. */
  lemma SplitStep(s: string, c: char)
    requires IndexOf(s, c) < |s|
    ensures |Split(s, c)| == 1 + |Split(s[IndexOf(s, c) + 1..], c)|
    ensures CountChar(s, c) == 1 + CountChar(s[IndexOf(s, c) + 1..], c)
  {
    var i := IndexOf(s, c);
    var tail := Split(s[i + 1..], c);
    assert Split(s, c) == [s[..i]] + tail;
    CountCharSkip(s, c);
  }

  /** Splitting on `c` yields one part more than there are `c`s. */
  lemma {:induction false} SplitCount(s: string, c: char)
    ensures |Split(s, c)| == CountChar(s, c) + 1
    decreases |s|
  {
    if IndexOf(s, c) == |s| {
      CountCharAbsent(s, c);
    } else {
      SplitStep(s, c);
      SplitCount(s[IndexOf(s, c) + 1..], c);
    }
  }

  /** Rejoining the parts restores the string. */
  lemma {:induction false} JoinSplit(s: string, c: char)
    ensures Join(Split(s, c), c) == s
    decreases |s|
  {
    var i := IndexOf(s, c);
    if i < |s| {
      var rest := s[i + 1..];
      var tail := Split(rest, c);
      var parts := Split(s, c);
      assert parts == [s[..i]] + tail;
      JoinCons(s[..i], tail, c);
      JoinSplit(rest, c);
      assert s == s[..i] + [c] + rest by { SeparatorSlices(s, i); }
    }
  }

  // Proof step only: `Join` of a part followed by more parts.
  lemma JoinCons(p: string, tail: seq<string>, c: char)
    requires |tail| >= 1
    ensures Join([p] + tail, c) == p + [c] + Join(tail, c)
  {
    assert ([p] + tail)[1..] == tail;
  }

  // Proof step only: a string is its slices around index `i`.
  lemma SeparatorSlices(s: string, i: nat)
    requires i < |s|
    ensures s == s[..i] + [s[i]] + s[i + 1..]
  {
  }

  // Proof step only: the first `c` in `p + [c] + r` is right after `p`.
  lemma IndexOfSeparator(p: string, c: char, r: string)
    requires c !in p
    ensures IndexOf(p + [c] + r, c) == |p|
  {
    var s := p + [c] + r;
    assert s[|p|] == c;
    assert forall j :: 0 <= j < |p| ==> s[j] == p[j];
  }

  /** Splitting a join of parts free of `c` gives the parts back. */
  lemma {:induction false} SplitJoin(parts: seq<string>, c: char)
    requires |parts| >= 1
    requires forall k :: 0 <= k < |parts| ==> c !in parts[k]
    ensures Split(Join(parts, c), c) == parts
    decreases |parts|
  {
    if |parts| > 1 {
      var p, r := parts[0], Join(parts[1..], c);
      var s := p + [c] + r;
      assert Join(parts, c) == s;
      IndexOfSeparator(p, c, r);
      assert s[..|p|] == p;
      assert s[|p| + 1..] == r;
      SplitJoin(parts[1..], c);
      assert Split(s, c) == [p] + parts[1..];
    }
  }

  /** The second part is the text between the first and the second `c`
      (or the end of `s` when there is only one `c`). */
  lemma SplitSecond(s: string, c: char) returns (i: nat, j: nat)
    requires c in s
    ensures i < j <= |s| && s[i] == c && (j < |s| ==> s[j] == c)
    ensures forall k :: 0 <= k < i ==> s[k] != c
    ensures forall k :: i < k < j ==> s[k] != c
    ensures Split(s, c)[1] == s[i + 1..j]
  {
    i := IndexOf(s, c);
    var rest := s[i + 1..];
    var m := IndexOf(rest, c);
    j := i + 1 + m;
    assert forall k :: i < k < j ==> s[k] == rest[k - i - 1];
    assert rest[..m] == s[i + 1..j];
  }

  // ---------------------------------------------------------------------------
  // trim
  // ---------------------------------------------------------------------------

  /** The characters `trim` removes: ECMAScript WhiteSpace (tab, vertical tab,
      form feed, the byte-order mark and the Unicode space separators) and
      LineTerminator (line feed, carriage return, line and paragraph separators). */
  predicate IsWhitespace(ch: char)
  {
    || ch == '\t' || ch == '\n' || ch == '\U{B}' || ch == '\U{C}' || ch == '\r'
    || ch == ' ' || ch == '\U{A0}' || ch == '\U{1680}'
    || ('\U{2000}' <= ch <= '\U{200A}')
    || ch == '\U{2028}' || ch == '\U{2029}' || ch == '\U{202F}' || ch == '\U{205F}'
    || ch == '\U{3000}' || ch == '\U{FEFF}'
  }

  predicate AllWhitespace(s: string)
  {
    forall i :: 0 <= i < |s| ==> IsWhitespace(s[i])
  }

  /** Drops the leading whitespace: the result is a suffix of `s` starting
      with a character that is not whitespace, and only whitespace was dropped. */
  function TrimStart(s: string): (r: string)
    ensures |r| <= |s| && r == s[|s| - |r|..]
    ensures AllWhitespace(s[..|s| - |r|])
    ensures r != [] ==> !IsWhitespace(r[0])
    decreases |s|
  {
    if |s| > 0 && IsWhitespace(s[0]) then
      var r := TrimStart(s[1..]);
      assert s[..|s| - |r|] == [s[0]] + s[1..][..|s| - 1 - |r|];
      assert s[1..][|s| - 1 - |r|..] == s[|s| - |r|..];
      r
    else
      s
  }

  /** Drops the trailing whitespace: the result is a prefix of `s` ending
      with a character that is not whitespace, and only whitespace was dropped. */
  function TrimEnd(s: string): (r: string)
    ensures |r| <= |s| && r == s[..|r|]
    ensures AllWhitespace(s[|r|..])
    ensures r != [] ==> !IsWhitespace(r[|r| - 1])
    decreases |s|
  {
    if |s| > 0 && IsWhitespace(s[|s| - 1]) then
      var r := TrimEnd(s[..|s| - 1]);
      assert s[|r|..] == s[..|s| - 1][|r|..] + [s[|s| - 1]];
      assert s[..|s| - 1][..|r|] == s[..|r|];
      r
    else
      s
  }

  /** `s.trim()`. */
  function Trim(s: string): (r: string)
    ensures |r| <= |s|
    ensures r != [] ==> !IsWhitespace(r[0]) && !IsWhitespace(r[|r| - 1])
  {
    TrimEnd(TrimStart(s))
  }

  lemma {:induction false} TrimStartExact(pre: string, core: string)
    requires AllWhitespace(pre)
    requires core != [] ==> !IsWhitespace(core[0])
    ensures TrimStart(pre + core) == core
    decreases |pre|
  {
    if pre == [] {
      assert pre + core == core;
    } else {
      assert (pre + core)[1..] == pre[1..] + core;
      TrimStartExact(pre[1..], core);
    }
  }

  lemma {:induction false} TrimEndExact(core: string, post: string)
    requires AllWhitespace(post)
    requires core != [] ==> !IsWhitespace(core[|core| - 1])
    ensures TrimEnd(core + post) == core
    decreases |post|
  {
    if post == [] {
      assert core + post == core;
    } else {
      var s := core + post;
      assert s[..|s| - 1] == core + post[..|post| - 1];
      TrimEndExact(core, post[..|post| - 1]);
    }
  }

  /** `trim` removes exactly the surrounding whitespace: for any text whose
      ends are not whitespace, padding it with whitespace on both sides and
      trimming gives it back. */
  lemma TrimExact(pre: string, core: string, post: string)
    requires AllWhitespace(pre) && AllWhitespace(post)
    requires core != [] ==> !IsWhitespace(core[0]) && !IsWhitespace(core[|core| - 1])
    ensures Trim(pre + core + post) == core
  {
    assert pre + core + post == pre + (core + post);
    if core == [] {
      assert core + post == post;
      TrimStartExact(pre + post, []);
      assert pre + post + [] == pre + post;
      TrimEndExact([], []);
    } else {
      TrimStartExact(pre, core + post);
      TrimEndExact(core, post);
    }
  }

  /** Every string is its trimmed text surrounded by whitespace. */
  lemma TrimDecomposes(s: string) returns (pre: string, post: string)
    ensures AllWhitespace(pre) && AllWhitespace(post)
    ensures s == pre + Trim(s) + post
  {
    var t := TrimStart(s);
    pre := LeadingWhitespace(s);
    post := TrailingWhitespace(t);
    assert Trim(s) == TrimEnd(t);
    Regroup3(s, pre, t, Trim(s), post);
  }

  // Proof step only: substitutes `u + post` for `t` in `pre + t`.
  lemma Regroup3(s: string, pre: string, t: string, u: string, post: string)
    requires s == pre + t && t == u + post
    ensures s == pre + u + post
  {
  }

  // Proof step only: the whitespace `TrimStart` dropped.
  lemma LeadingWhitespace(s: string) returns (pre: string)
    ensures AllWhitespace(pre) && s == pre + TrimStart(s)
  {
    var t := TrimStart(s);
    var k := |s| - |t|;
    pre := s[..k];
    SplitAt(s, k);
  }

  // Proof step only: the whitespace `TrimEnd` dropped.
  lemma TrailingWhitespace(t: string) returns (post: string)
    ensures AllWhitespace(post) && t == TrimEnd(t) + post
  {
    var u := TrimEnd(t);
    post := t[|u|..];
    SplitAt(t, |u|);
  }

  // Proof step only: a string is its prefix followed by the rest.
  lemma SplitAt(s: string, k: nat)
    requires k <= |s|
    ensures s == s[..k] + s[k..]
  {
  }

  // ---------------------------------------------------------------------------
  // replace(/^["']|["']$/g, '')
  // ---------------------------------------------------------------------------

  predicate IsQuote(ch: char)
  {
    ch == '"' || ch == '\''
  }

  /** The global replacement of `/^["']|["']$/g` by the empty string, as the
      regular-expression engine performs it: positions are tried from left to
      right; at position `p` the first alternative matches a quote when `p` is
      the start of the input, the second a quote that is the input's last
      character; a matched character is dropped and the scan resumes after it. */
  function ReplaceQuoteAnchors(s: string, p: nat): string
    requires p <= |s|
    decreases |s| - p
  {
    if p == |s| then
      []
    else if IsQuote(s[p]) && (p == 0 || p == |s| - 1) then
      ReplaceQuoteAnchors(s, p + 1)
    else
      [s[p]] + ReplaceQuoteAnchors(s, p + 1)
  }

  /** `s.replace(/^["']|["']$/g, '')`. */
  function StripQuotes(s: string): string
  {
    ReplaceQuoteAnchors(s, 0)
  }

  /** 1 when `s` starts with a quote, else 0. */
  function LeadingQuote(s: string): nat
  {
    if |s| > 0 && IsQuote(s[0]) then 1 else 0
  }

  /** 1 when `s` has a quote as its last character that the leading quote
      did not already take, else 0. */
  function TrailingQuote(s: string): nat
  {
    if |s| > LeadingQuote(s) && IsQuote(s[|s| - 1]) then 1 else 0
  }

  lemma {:induction false} ReplaceQuoteAnchorsFrom(s: string, p: nat)
    requires 0 < p <= |s|
    ensures ReplaceQuoteAnchors(s, p)
         == s[p..if p < |s| && IsQuote(s[|s| - 1]) then |s| - 1 else |s|]
    decreases |s| - p
  {
    if p < |s| - 1 {
      ReplaceQuoteAnchorsFrom(s, p + 1);
      var e := if IsQuote(s[|s| - 1]) then |s| - 1 else |s|;
      assert s[p..e] == [s[p]] + s[p + 1..e];
    }
  }

  /** The replacement removes at most one leading and, independently, at most
      one trailing quote, and leaves the rest of the string as it was. */
  lemma StripQuotesSlice(s: string)
    ensures LeadingQuote(s) + TrailingQuote(s) <= |s|
    ensures StripQuotes(s) == s[LeadingQuote(s)..|s| - TrailingQuote(s)]
  {
    if |s| > 0 {
      if |s| == 1 {
        assert ReplaceQuoteAnchors(s, 1) == [];
      } else {
        ReplaceQuoteAnchorsFrom(s, 1);
        if !IsQuote(s[0]) {
          var e := |s| - TrailingQuote(s);
          assert s[0..e] == [s[0]] + s[1..e];
        }
      }
    }
  }

  // ---------------------------------------------------------------------------
  // toLowerCase (ASCII letters only)
  // ---------------------------------------------------------------------------

  /** Lower-cases an ASCII capital letter; every other character is unchanged. */
  function LowerChar(ch: char): (r: char)
    ensures 'A' <= ch <= 'Z' ==> 'a' <= r <= 'z' && r as int == ch as int + 32
    ensures !('A' <= ch <= 'Z') ==> r == ch
  {
    if 'A' <= ch <= 'Z' then (ch as int + 32) as char else ch
  }

  /** `s.toLowerCase()` restricted to ASCII letters. */
  function ToLower(s: string): (r: string)
    ensures |r| == |s|
    ensures forall i :: 0 <= i < |s| ==> r[i] == LowerChar(s[i])
  {
    seq(|s|, i requires 0 <= i < |s| => LowerChar(s[i]))
  }

  /** Two characters are the same letter up to ASCII case: equal, or one is a
      capital and the other the matching small letter. */
  predicate SameIgnoringCase(x: char, y: char)
  {
    || x == y
    || ('A' <= x <= 'Z' && y as int == x as int + 32)
    || ('A' <= y <= 'Z' && x as int == y as int + 32)
  }

  lemma LowerCharEqual(x: char, y: char)
    ensures LowerChar(x) == LowerChar(y) <==> SameIgnoringCase(x, y)
  {
  }

  /** Two strings lower-case to the same string exactly when they have the
      same length and agree position by position up to ASCII case. */
  lemma ToLowerEqual(a: string, b: string)
    ensures ToLower(a) == ToLower(b)
        <==> |a| == |b| && forall i :: 0 <= i < |a| ==> SameIgnoringCase(a[i], b[i])
  {
    if ToLower(a) == ToLower(b) {
      forall i | 0 <= i < |a|
        ensures SameIgnoringCase(a[i], b[i])
      {
        assert ToLower(a)[i] == ToLower(b)[i];
        LowerCharEqual(a[i], b[i]);
      }
    }
    if |a| == |b| && forall i :: 0 <= i < |a| ==> SameIgnoringCase(a[i], b[i]) {
      forall i | 0 <= i < |a|
        ensures ToLower(a)[i] == ToLower(b)[i]
      {
        LowerCharEqual(a[i], b[i]);
      }
    }
  }
}
