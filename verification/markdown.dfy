/** The markdown cleaner `clean_markdown`: five regular-expression
    substitutions applied in a fixed order, then `strip()`. Each
    substitution is written out as a scan with Python's `re.sub` semantics:
    the leftmost match wins, quantifiers are greedy, matches do not
    overlap and scanning resumes right after a match. */
module Markdown {
  import opened Strings

  /** Three newlines in a row start at index `k` of `s`. */
  predicate TripleNewlineAt(s: string, k: int)
    requires 0 <= k < |s| - 2
  {
    s[k] == '\n' && s[k + 1] == '\n' && s[k + 2] == '\n'
  }

  /** No three consecutive newlines anywhere in `s`. */
  predicate NoTripleNewline(s: string) {
    forall k :: 0 <= k < |s| - 2 ==> !TripleNewlineAt(s, k)
  }

  /** `**` starts at index `k` of `s`. */
  predicate DoubleStarAt(s: string, k: int)
    requires 0 <= k < |s| - 1
  {
    s[k] == '*' && s[k + 1] == '*'
  }

  /** The characters of `s` that are neither `#` nor whitespace, in order. */
  function Visible(s: string): (r: string)
    ensures forall c :: c in r ==> c != '#' && !IsSpace(c)
  {
    if s == [] then []
    else (if s[0] == '#' || IsSpace(s[0]) then [] else [s[0]]) + Visible(s[1..])
  }

  // ---------------------------------------------------------------------------
  // Pass 1: r'#{1,6}\s?' -> ''

  /** How many `#` start `s`, but no more than `limit`: the greedy `#{1,limit}`. */
  function LeadingHashes(s: string, limit: nat): (n: nat)
    ensures n <= limit && n <= |s|
    ensures forall k :: 0 <= k < n ==> s[k] == '#'
    ensures n < limit && n < |s| ==> s[n] != '#'
    ensures |s| > 0 && s[0] == '#' && limit > 0 ==> n >= 1
  {
    if s == [] || limit == 0 || s[0] != '#' then 0 else 1 + LeadingHashes(s[1..], limit - 1)
  }

  /** Every run of one to six `#` is deleted together with one whitespace
      character right after it, wherever it occurs in the text. A longer run
      is consumed six at a time. */
  function StripHeaders(s: string): (r: string)
    ensures '#' !in r
    ensures '#' !in s ==> r == s
    ensures forall c :: c in r ==> c in s
    decreases |s|
  {
    if s == [] then []
    else if s[0] == '#' then
      var n := LeadingHashes(s, 6);
      var rest := s[n..];
      if rest != [] && IsSpace(rest[0]) then StripHeaders(rest[1..]) else StripHeaders(rest)
    else [s[0]] + StripHeaders(s[1..])
  }

  /** Skipping a prefix of `#` and whitespace does not change what is visible. */
  lemma {:induction false} VisibleSkip(s: string, n: nat)
    requires n <= |s|
    requires forall k :: 0 <= k < n ==> s[k] == '#' || IsSpace(s[k])
    ensures Visible(s) == Visible(s[n..])
  {
    if n > 0 {
      VisibleSkip(s[1..], n - 1);
      assert s[1..][n - 1..] == s[n..];
    }
  }

  /** The header pass deletes only `#` and whitespace: every other character
      survives, in its original order. */
  lemma {:induction false} StripHeadersKeepsVisible(s: string)
    ensures Visible(StripHeaders(s)) == Visible(s)
    decreases |s|
  {
    if s == [] {
    } else if s[0] == '#' {
      var n := LeadingHashes(s, 6);
      var rest := s[n..];
      VisibleSkip(s, n);
      if rest != [] && IsSpace(rest[0]) {
        VisibleSkip(rest, 1);
        StripHeadersKeepsVisible(rest[1..]);
      } else {
        StripHeadersKeepsVisible(rest);
      }
    } else {
      var r := [s[0]] + StripHeaders(s[1..]);
      assert r[0] == s[0] && r[1..] == StripHeaders(s[1..]);
      StripHeadersKeepsVisible(s[1..]);
    }
  }

  /** A run of `n` hash signs. */
  function Hashes(n: nat): string {
    seq(n, _ => '#')
  }

  /** A run of one to six `#` goes together with the whitespace character
      after it. */
  lemma HeaderRunSwallowsSpace(n: nat, c: char, rest: string)
    requires 1 <= n <= 6 && IsSpace(c)
    ensures StripHeaders(Hashes(n) + [c] + rest) == StripHeaders(rest)
  {
    var s := Hashes(n) + [c] + rest;
    assert s[n] == c;
    assert forall k :: 0 <= k < n ==> s[k] == '#';
    var m := LeadingHashes(s, 6);
    assert m == n;
    assert s[n..][1..] == rest;
  }

  /** A run of one to six `#` not followed by whitespace goes alone. */
  lemma HeaderRunAlone(n: nat, rest: string)
    requires 1 <= n <= 6
    requires rest != [] ==> !IsSpace(rest[0]) && (n < 6 ==> rest[0] != '#')
    ensures StripHeaders(Hashes(n) + rest) == StripHeaders(rest)
  {
    var s := Hashes(n) + rest;
    assert forall k :: 0 <= k < n ==> s[k] == '#';
    assert rest != [] ==> s[n] == rest[0];
    var m := LeadingHashes(s, 6);
    assert m == n;
    assert s[n..] == rest;
  }

  /** The rule is not tied to line starts: any character other than `#`
      passes through, wherever it stands. */
  lemma StripHeadersPassesText(c: char, s: string)
    requires c != '#'
    ensures StripHeaders([c] + s) == [c] + StripHeaders(s)
  {
    assert ([c] + s)[1..] == s;
  }

  /** A run of seven `#` is taken as six and then one, and the second chunk
      swallows the whitespace after it. */
  lemma LongHeaderRun(c: char, rest: string)
    requires IsSpace(c)
    ensures StripHeaders(Hashes(7) + [c] + rest) == StripHeaders(rest)
  {
    var s := Hashes(7) + [c] + rest;
    assert forall k :: 0 <= k < 7 ==> s[k] == '#';
    assert LeadingHashes(s, 6) == 6;
    assert s[6..] == Hashes(1) + [c] + rest;
    HeaderRunSwallowsSpace(1, c, rest);
  }

  /** The rule is not tied to line starts: a `#` inside a sentence goes,
      and so does the space after it. */
  lemma HeaderMidLine()
    ensures StripHeaders("C# is") == "Cis"
  {
    var s := "C# is";
    assert s == ['C'] + (Hashes(1) + [' '] + "is");
    HeaderRunSwallowsSpace(1, ' ', "is");
    assert StripHeaders("is") == "is";
  }

  // ---------------------------------------------------------------------------
  // Pass 2: r'\*\*' -> ''    Passes 3 and 4: r'\*' -> '' and r'`' -> ''

  /** Deletes `**` pairs from left to right; in a run of three `*` the
      first two go and the third stays. */
  function RemoveBold(s: string): (r: string)
    ensures forall k :: 0 <= k < |r| - 1 ==> !DoubleStarAt(r, k)
    ensures |s| > 0 && s[0] != '*' ==> |r| > 0 && r[0] == s[0]
    ensures '*' !in s ==> r == s
    ensures forall c :: c in r ==> c in s
  {
    if |s| >= 2 && s[0] == '*' && s[1] == '*' then RemoveBold(s[2..])
    else if s == [] then []
    else
      var rest := RemoveBold(s[1..]);
      assert forall k :: 0 <= k < |rest| ==> ([s[0]] + rest)[k + 1] == rest[k];
      assert forall k :: 1 <= k < |rest| ==> DoubleStarAt([s[0]] + rest, k) == DoubleStarAt(rest, k - 1);
      [s[0]] + rest
  }

  /** A `**` pair is deleted. */
  lemma RemoveBoldPair(s: string)
    ensures RemoveBold("**" + s) == RemoveBold(s)
  {
    assert ("**" + s)[2..] == s;
  }

  /** Any character other than `*` passes through the bold pass. */
  lemma RemoveBoldPassesText(c: char, s: string)
    requires c != '*'
    ensures RemoveBold([c] + s) == [c] + RemoveBold(s)
  {
    assert ([c] + s)[1..] == s;
  }

  /** A `*` that does not start a `**` pair is kept: the bold pass leaves
      italic markers to the next pass. */
  lemma RemoveBoldKeepsLoneStar(c: char, s: string)
    requires c != '*'
    ensures RemoveBold(['*', c] + s) == ['*', c] + RemoveBold(s)
    ensures RemoveBold("*") == "*"
  {
    var t := ['*', c] + s;
    assert t[1..] == [c] + s;
    RemoveBoldStarStep(t);
    RemoveBoldPassesText(c, s);
    assert ['*'] + ([c] + RemoveBold(s)) == ['*', c] + RemoveBold(s);
    RemoveBoldStarStep("*");
  }

  /** A `*` not followed by another `*` is copied, and the pass goes on
      after it. */
  lemma RemoveBoldStarStep(s: string)
    requires |s| >= 1 && s[0] == '*'
    requires |s| < 2 || s[1] != '*'
    ensures RemoveBold(s) == ['*'] + RemoveBold(s[1..])
  {
  }

  /** Deletes every occurrence of the character `c`. */
  function RemoveChar(s: string, c: char): (r: string)
    ensures |r| <= |s|
    ensures c !in r
    ensures c !in s ==> r == s
    ensures forall d :: d in r ==> d in s
  {
    if s == [] then []
    else (if s[0] == c then [] else [s[0]]) + RemoveChar(s[1..], c)
  }

  /** On a single character: it goes if it is `c` and stays otherwise. */
  lemma RemoveCharSingle(x: char, c: char)
    ensures RemoveChar([x], c) == if x == c then [] else [x]
  {
    assert [x][1..] == [];
  }

  /** Removing a character works piece by piece: the characters that stay
      keep their order. */
  lemma {:induction false} RemoveCharAppend(a: string, b: string, c: char)
    ensures RemoveChar(a + b, c) == RemoveChar(a, c) + RemoveChar(b, c)
  {
    if a != [] {
      assert (a + b)[0] == a[0] && (a + b)[1..] == a[1..] + b;
      RemoveCharAppend(a[1..], b, c);
    } else {
      assert a + b == b;
    }
  }

  /** The bold pass is subsumed by the italic pass that follows it: removing
      `**` pairs and then every `*` is the same as removing every `*`. */
  lemma {:induction false} BoldSubsumedByItalic(s: string)
    ensures RemoveChar(RemoveBold(s), '*') == RemoveChar(s, '*')
  {
    if |s| >= 2 && s[0] == '*' && s[1] == '*' {
      BoldSubsumedByItalic(s[2..]);
      assert s[1..][1..] == s[2..];
    } else if s != [] {
      var b := [s[0]] + RemoveBold(s[1..]);
      assert b[0] == s[0] && b[1..] == RemoveBold(s[1..]);
      BoldSubsumedByItalic(s[1..]);
    }
  }

  // ---------------------------------------------------------------------------
  // Pass 5: r'\n{3,}' -> '\n\n'

  /** The length of the run of newlines that starts `s`. */
  function NewlineRun(s: string): (n: nat)
    ensures n <= |s|
    ensures forall k :: 0 <= k < n ==> s[k] == '\n'
    ensures n < |s| ==> s[n] != '\n'
  {
    if s == [] || s[0] != '\n' then 0 else 1 + NewlineRun(s[1..])
  }

  /** At most two newlines followed by text that has no triple newline and
      does not start with a newline have no triple newline. */
  lemma NoTripleAfterShortPrefix(p: string, t: string)
    requires |p| <= 2
    requires NoTripleNewline(t)
    requires |t| > 0 ==> t[0] != '\n'
    ensures NoTripleNewline(p + t)
  {
    var s := p + t;
    forall k | 0 <= k < |s| - 2
      ensures !TripleNewlineAt(s, k)
    {
      if k >= |p| {
        assert s[k] == t[k - |p|] && s[k + 1] == t[k - |p| + 1] && s[k + 2] == t[k - |p| + 2];
        assert !TripleNewlineAt(t, k - |p|);
      } else {
        assert s[|p|] == t[0];
      }
    }
  }

  /** A character other than a newline followed by text without a triple
      newline has no triple newline. */
  lemma NoTripleAfterChar(c: char, t: string)
    requires c != '\n'
    requires NoTripleNewline(t)
    ensures NoTripleNewline([c] + t)
  {
    var s := [c] + t;
    forall k | 0 <= k < |s| - 2
      ensures !TripleNewlineAt(s, k)
    {
      if k > 0 {
        assert s[k] == t[k - 1] && s[k + 1] == t[k] && s[k + 2] == t[k + 1];
        assert !TripleNewlineAt(t, k - 1);
      }
    }
  }

  /** A slice of a text without triple newlines has none either. */
  lemma NoTripleSlice(s: string, i: nat, j: nat)
    requires i <= j <= |s|
    requires NoTripleNewline(s)
    ensures NoTripleNewline(s[i..j])
  {
    var t := s[i..j];
    forall k | 0 <= k < |t| - 2
      ensures !TripleNewlineAt(t, k)
    {
      assert t[k] == s[i + k] && t[k + 1] == s[i + k + 1] && t[k + 2] == s[i + k + 2];
      assert !TripleNewlineAt(s, i + k);
    }
  }

  /** Replaces each run of three or more newlines by exactly two. */
  function CollapseNewlines(s: string): (r: string)
    ensures NoTripleNewline(r)
    ensures forall c :: c in r ==> c in s
    ensures |s| > 0 && s[0] != '\n' ==> |r| > 0 && r[0] == s[0]
  {
    if s == [] then []
    else if s[0] == '\n' then
      var n := NewlineRun(s);
      var rest := CollapseNewlines(s[n..]);
      NoTripleAfterShortPrefix(if n >= 3 then "\n\n" else s[..n], rest);
      (if n >= 3 then "\n\n" else s[..n]) + rest
    else
      var rest := CollapseNewlines(s[1..]);
      NoTripleAfterChar(s[0], rest);
      [s[0]] + rest
  }

  /** A run of `n` newlines. */
  function Newlines(n: nat): string {
    seq(n, _ => '\n')
  }

  /** A maximal run of three or more newlines becomes exactly two. */
  lemma CollapseLongRun(n: nat, t: string)
    requires n >= 3 && (t != [] ==> t[0] != '\n')
    ensures CollapseNewlines(Newlines(n) + t) == "\n\n" + CollapseNewlines(t)
  {
    var s := Newlines(n) + t;
    assert forall k :: 0 <= k < n ==> s[k] == '\n';
    assert t != [] ==> s[n] == t[0];
    assert NewlineRun(s) == n;
    assert s[n..] == t;
  }

  /** A maximal run of one or two newlines is kept as it is. */
  lemma CollapseShortRun(n: nat, t: string)
    requires 1 <= n <= 2 && (t != [] ==> t[0] != '\n')
    ensures CollapseNewlines(Newlines(n) + t) == Newlines(n) + CollapseNewlines(t)
  {
    var s := Newlines(n) + t;
    assert forall k :: 0 <= k < n ==> s[k] == '\n';
    assert t != [] ==> s[n] == t[0];
    assert NewlineRun(s) == n;
    assert s[n..] == t && s[..n] == Newlines(n);
  }

  /** Any character other than a newline passes through. */
  lemma CollapsePassesText(c: char, t: string)
    requires c != '\n'
    ensures CollapseNewlines([c] + t) == [c] + CollapseNewlines(t)
  {
    assert ([c] + t)[1..] == t;
  }

  /** A text without three newlines in a row is left as it is. */
  lemma {:induction false} CollapseKeepsShortRuns(s: string)
    requires NoTripleNewline(s)
    ensures CollapseNewlines(s) == s
    decreases |s|
  {
    if s == [] {
    } else if s[0] == '\n' {
      var n := NewlineRun(s);
      assert n < 3 by {
        assert |s| >= 3 ==> !TripleNewlineAt(s, 0);
      }
      NoTripleSlice(s, n, |s|);
      assert s[n..|s|] == s[n..];
      CollapseKeepsShortRuns(s[n..]);
      assert s[..n] + s[n..] == s;
    } else {
      NoTripleSlice(s, 1, |s|);
      assert s[1..|s|] == s[1..];
      CollapseKeepsShortRuns(s[1..]);
    }
  }

  /** Collapsing changes newlines only: with newlines removed, the output and
      the input are the same text. */
  lemma {:induction false} CollapseKeepsText(s: string)
    ensures RemoveChar(CollapseNewlines(s), '\n') == RemoveChar(s, '\n')
    decreases |s|
  {
    if s == [] {
    } else if s[0] == '\n' {
      CollapseKeepsText(s[NewlineRun(s)..]);
      CollapseRunStep(s);
    } else {
      CollapseKeepsText(s[1..]);
      CollapseCharStep(s);
    }
  }

  /** The newline-run case of `CollapseKeepsText`, given the rest. */
  lemma CollapseRunStep(s: string)
    requires s != [] && s[0] == '\n'
    requires RemoveChar(CollapseNewlines(s[NewlineRun(s)..]), '\n') == RemoveChar(s[NewlineRun(s)..], '\n')
    ensures RemoveChar(CollapseNewlines(s), '\n') == RemoveChar(s, '\n')
  {
    var n := NewlineRun(s);
    CollapseRunUnfold(s);
    NewlinesVanish(Newlines(if n >= 3 then 2 else n), CollapseNewlines(s[n..]));
    RunPrefixVanishes(s, n);
  }

  /** One step of `CollapseNewlines` on a leading run of newlines. */
  lemma CollapseRunUnfold(s: string)
    requires s != [] && s[0] == '\n'
    ensures var n := NewlineRun(s);
            CollapseNewlines(s) == Newlines(if n >= 3 then 2 else n) + CollapseNewlines(s[n..])
  {
    var n := NewlineRun(s);
    assert s[..n] == Newlines(n);
    assert "\n\n" == Newlines(2);
  }

  /** Dropping a leading run of newlines does not change the text left
      once newlines are removed. */
  lemma RunPrefixVanishes(s: string, n: nat)
    requires n <= |s|
    requires forall k :: 0 <= k < n ==> s[k] == '\n'
    ensures RemoveChar(s, '\n') == RemoveChar(s[n..], '\n')
  {
    assert s == s[..n] + s[n..];
    NewlinesVanish(s[..n], s[n..]);
  }

  /** The other-character case of `CollapseKeepsText`, given the rest. */
  lemma CollapseCharStep(s: string)
    requires s != [] && s[0] != '\n'
    requires RemoveChar(CollapseNewlines(s[1..]), '\n') == RemoveChar(s[1..], '\n')
    ensures RemoveChar(CollapseNewlines(s), '\n') == RemoveChar(s, '\n')
  {
    var rest := s[1..];
    assert CollapseNewlines(s) == [s[0]] + CollapseNewlines(rest);
    RemoveCharAppend([s[0]], CollapseNewlines(rest), '\n');
    RemoveCharAppend([s[0]], rest, '\n');
    assert s == [s[0]] + rest;
  }

  /** Removing newlines from a prefix made only of newlines leaves the rest. */
  lemma {:induction false} NewlinesVanish(p: string, t: string)
    requires forall k :: 0 <= k < |p| ==> p[k] == '\n'
    ensures RemoveChar(p + t, '\n') == RemoveChar(t, '\n')
  {
    if p != [] {
      assert (p + t)[0] == '\n' && (p + t)[1..] == p[1..] + t;
      assert RemoveChar(p + t, '\n') == RemoveChar(p[1..] + t, '\n');
      NewlinesVanish(p[1..], t);
    } else {
      assert p + t == t;
    }
  }

  // ---------------------------------------------------------------------------
  // The whole cleaner

  /** `Strip` keeps a slice, and with it the absence of triple newlines. */
  lemma StripKeepsNoTriple(s: string)
    requires NoTripleNewline(s)
    ensures NoTripleNewline(Strip(s))
  {
    var r := Strip(s);
    var i := StripStart(s);
    assert StrippedAt(s, r, i);
    NoTripleSlice(s, i, i + |r|);
    assert r == s[i..i + |r|];
  }

  /** `clean_markdown`: headers, bold, italic and code markers removed,
      newline runs collapsed, outer whitespace stripped. The result carries
      no `#`, `*` or backtick, no three newlines in a row, and no whitespace
      at either end. */
  function Clean(text: string): (r: string)
    ensures '#' !in r && '*' !in r && '`' !in r
    ensures NoTripleNewline(r)
    ensures Trimmed(r)
  {
    var collapsed := CollapseNewlines(RemoveChar(RemoveChar(RemoveBold(StripHeaders(text)), '*'), '`'));
    StripKeepsNoTriple(collapsed);
    StripKeepsChars(collapsed);
    Strip(collapsed)
  }

  /** A text with no markers, no three newlines in a row and no outer
      whitespace goes through the cleaner unchanged. */
  lemma CleanFixes(y: string)
    requires '#' !in y && '*' !in y && '`' !in y
    requires NoTripleNewline(y) && Trimmed(y)
    ensures Clean(y) == y
  {
    assert StripHeaders(y) == y;
    assert RemoveBold(y) == y;
    assert RemoveChar(y, '*') == y;
    assert RemoveChar(y, '`') == y;
    CollapseKeepsShortRuns(y);
    StripTrimmed(y);
  }

  /** Cleaning an already cleaned text changes nothing. */
  lemma CleanIdempotent(text: string)
    ensures Clean(Clean(text)) == Clean(text)
  {
    CleanFixes(Clean(text));
  }

  // ---------------------------------------------------------------------------
  // The cleaner keeps the text between the markers

  /** The text content of `s`: its characters other than `#`, `*`, the
      backtick and whitespace, in order. */
  function Text(s: string): string {
    RemoveChar(RemoveChar(Visible(s), '*'), '`')
  }

  lemma {:induction false} VisibleAppend(a: string, b: string)
    ensures Visible(a + b) == Visible(a) + Visible(b)
  {
    if a != [] {
      assert (a + b)[0] == a[0] && (a + b)[1..] == a[1..] + b;
      VisibleAppend(a[1..], b);
    } else {
      assert a + b == b;
    }
  }

  /** Whitespace alone has no visible character. */
  lemma {:induction false} VisibleOfSpace(a: string)
    requires AllSpace(a)
    ensures Visible(a) == []
  {
    if a != [] {
      assert AllSpace(a[1..]) by {
        assert forall k :: 0 <= k < |a| - 1 ==> a[1..][k] == a[k + 1];
      }
      VisibleOfSpace(a[1..]);
    }
  }

  /** Removing a character and taking the visible characters can be done in
      either order. */
  lemma {:induction false} VisibleRemoveChar(s: string, c: char)
    ensures Visible(RemoveChar(s, c)) == RemoveChar(Visible(s), c)
  {
    if s != [] {
      var h1 := if s[0] == c then [] else [s[0]];
      var h2 := if s[0] == '#' || IsSpace(s[0]) then [] else [s[0]];
      assert RemoveChar(s, c) == h1 + RemoveChar(s[1..], c);
      assert Visible(s) == h2 + Visible(s[1..]);
      VisibleAppend(h1, RemoveChar(s[1..], c));
      RemoveCharAppend(h2, Visible(s[1..]), c);
      VisibleRemoveChar(s[1..], c);
      assert Visible(h1) == RemoveChar(h2, c) by {
        if h1 != [] { assert h1[1..] == []; }
        if h2 != [] { assert h2[1..] == []; }
      }
    }
  }

  /** Newlines are never visible. */
  lemma NewlinesInvisible(s: string)
    ensures Visible(RemoveChar(s, '\n')) == Visible(s)
  {
    VisibleRemoveChar(s, '\n');
    assert IsSpace('\n');
  }

  /** Stripping removes whitespace only. */
  lemma StripKeepsVisible(s: string)
    ensures Visible(Strip(s)) == Visible(s)
  {
    var r := Strip(s);
    var i := StripStart(s);
    assert StrippedAt(s, r, i);
    var head, tail := s[..i], s[i + |r|..];
    SliceSplit(s, i, i + |r|);
    VisibleAppend(head + r, tail);
    VisibleAppend(head, r);
    VisibleOfSpace(head);
    VisibleOfSpace(tail);
  }

  lemma SliceSplit(s: string, i: nat, j: nat)
    requires i <= j <= |s|
    ensures s == s[..i] + s[i..j] + s[j..]
  {
  }

  /** `clean_markdown` removes the markers without altering the text between
      them: the text content of the result is that of the input. */
  lemma CleanKeepsText(text: string)
    ensures Text(Clean(text)) == Text(text)
  {
    var x1 := StripHeaders(text);
    var x3 := RemoveChar(RemoveBold(x1), '*');
    var x4 := RemoveChar(x3, '`');
    var x5 := CollapseNewlines(x4);
    StripHeadersKeepsVisible(text);
    BoldSubsumedByItalic(x1);
    VisibleRemoveChar(x1, '*');
    VisibleRemoveChar(x3, '`');
    CollapseKeepsText(x4);
    NewlinesInvisible(x4);
    NewlinesInvisible(x5);
    StripKeepsVisible(x5);
    var v := Visible(Clean(text));
    assert v == RemoveChar(RemoveChar(Visible(text), '*'), '`');
    assert '*' !in v && '`' !in v;
  }
}
