/** The Python `str` operations the scraper and the two converters rely on, over `string`
    (sequences of Unicode scalar values): `isspace`, `strip`, `split()` without a separator,
    `" ".join`, `replace`, `in` on substrings, `split(sep)[0]`, and the scraper's
    `normalize_text`, which is built from them. */
module PyText {

  /** Python's `str.isspace()` for one character: the whitespace set that `split()` with no
      argument and `strip()` with no argument use. */
  predicate IsSpace(c: char)
  {
    || c == ' '
    || ('\t' <= c <= '\r')
    || ('\U{1c}' <= c <= '\U{1f}')
    || c == '\U{85}'
    || c == '\U{a0}'
    || c == '\U{1680}'
    || ('\U{2000}' <= c <= '\U{200a}')
    || c == '\U{2028}'
    || c == '\U{2029}'
    || c == '\U{202f}'
    || c == '\U{205f}'
    || c == '\U{3000}'
  }

  /** The no-break space U+00A0 that `normalize_text` replaces by a plain space first. */
  const Nbsp: char := '\U{a0}'

  // ---------------------------------------------------------------------------------------
  // strip

  /** `s.lstrip()`: drops the leading whitespace, keeps a suffix of `s`. */
  function LStrip(s: string): (r: string)
    ensures |r| <= |s| && r == s[|s| - |r|..]
    ensures forall i :: 0 <= i < |s| - |r| ==> IsSpace(s[i])
    ensures r == [] || !IsSpace(r[0])
  {
    if s != [] && IsSpace(s[0]) then LStrip(s[1..]) else s
  }

  /** `s.rstrip()`: drops the trailing whitespace, keeps a prefix of `s`. */
  function RStrip(s: string): (r: string)
    ensures |r| <= |s| && r == s[..|r|]
    ensures forall i :: |r| <= i < |s| ==> IsSpace(s[i])
    ensures r == [] || !IsSpace(r[|r| - 1])
  {
    if s != [] && IsSpace(s[|s| - 1]) then RStrip(s[..|s| - 1]) else s
  }

  /** `s.strip()`: neither end of the result is whitespace, and everything cut off was. */
  function Strip(s: string): (r: string)
    ensures r == [] || (!IsSpace(r[0]) && !IsSpace(r[|r| - 1]))
    ensures |r| <= |s|
  {
    RStrip(LStrip(s))
  }

  /** `s.strip()` is empty exactly when `s` is all whitespace. */
  lemma StripEmpty(s: string)
    ensures (forall i :: 0 <= i < |s| ==> IsSpace(s[i])) <==> Strip(s) == []
  {
    var l := LStrip(s);
    assert forall i :: |s| - |l| <= i < |s| ==> s[i] == l[i - (|s| - |l|)];
  }

  /** A prefix `r` of the suffix `l` of `s` that starts at `i` is the slice of `s` at `i`, and
      what `l` has after `r` is what `s` has there. */
  lemma SliceOfSuffix(s: string, i: nat, l: string, r: string)
    requires i <= |s| && l == s[i..] && |r| <= |l| && r == l[..|r|]
    requires forall k :: |r| <= k < |l| ==> IsSpace(l[k])
    ensures i + |r| <= |s| && r == s[i..i + |r|]
    ensures forall j :: i + |r| <= j < |s| ==> IsSpace(s[j])
  {
    forall j | i + |r| <= j < |s|
      ensures IsSpace(s[j])
    {
      assert l[j - i] == s[j];
    }
  }

  /** `strip()` keeps one slice of the string, starting where `lstrip()` starts: everything
      before it and after it is whitespace. */
  lemma StripIsSlice(s: string)
    ensures var i := |s| - |LStrip(s)|;
            i + |Strip(s)| <= |s| && Strip(s) == s[i..i + |Strip(s)|]
            && (forall j :: 0 <= j < i ==> IsSpace(s[j]))
            && (forall j :: i + |Strip(s)| <= j < |s| ==> IsSpace(s[j]))
  {
    var l := LStrip(s);
    SliceOfSuffix(s, |s| - |l|, l, RStrip(l));
  }

  /** A string neither of whose ends is whitespace is its own `strip()`. */
  lemma StripTrimmed(s: string)
    requires s == [] || (!IsSpace(s[0]) && !IsSpace(s[|s| - 1]))
    ensures Strip(s) == s
  {
  }

  /** One blank after a trimmed string is what `strip()` takes off. */
  lemma StripTrailingBlank(s: string, c: char)
    requires s == [] || (!IsSpace(s[0]) && !IsSpace(s[|s| - 1]))
    requires IsSpace(c)
    ensures Strip(s + [c]) == s
  {
    var t := s + [c];
    if s == [] {
      assert LStrip(t) == LStrip(t[1..]) && t[1..] == [];
    } else {
      assert t[0] == s[0];
      assert LStrip(t) == t;
      assert t[..|t| - 1] == s;
      assert RStrip(t) == RStrip(s);
    }
  }

  /** A non-empty string followed by `x` is its first character, then the rest and `x`. */
  lemma ConsAppend(a: string, x: string)
    requires a != []
    ensures a + x == [a[0]] + (a[1..] + x)
  {
  }

  // ---------------------------------------------------------------------------------------
  // substrings: `sub in s`, `s.split(sub)[0]`, `s.replace(old, new)`

  /** Python's `sub in s`. */
  predicate Contains(s: string, sub: string)
    decreases |s|
  {
    |sub| <= |s| && (s[..|sub|] == sub || Contains(s[1..], sub))
  }

  /** A one-character string occurs exactly when the character does. */
  lemma {:induction false} ContainsChar(s: string, c: char)
    ensures Contains(s, [c]) <==> c in s
    decreases |s|
  {
    if s != [] {
      ContainsChar(s[1..], c);
      assert s == [s[0]] + s[1..];
    }
  }

  /** An occurrence of `sub` needs its first character. */
  lemma {:induction false} ContainsFirst(s: string, sub: string)
    requires sub != [] && Contains(s, sub)
    ensures sub[0] in s
    decreases |s|
  {
    if s[..|sub|] == sub {
      assert s[0] == sub[0];
    } else {
      ContainsFirst(s[1..], sub);
    }
  }

  /** What a suffix of `s` contains, `s` contains. */
  lemma {:induction false} ContainsInSuffix(s: string, k: nat, sub: string)
    requires k <= |s| && Contains(s[k..], sub)
    ensures Contains(s, sub)
    decreases k
  {
    if k > 0 {
      assert s[k..] == s[1..][k - 1..];
      ContainsInSuffix(s[1..], k - 1, sub);
    } else {
      assert s[k..] == s;
    }
  }

  /** What a prefix of `s` contains, `s` contains. */
  lemma {:induction false} ContainsInPrefix(s: string, k: nat, sub: string)
    requires k <= |s| && Contains(s[..k], sub)
    ensures Contains(s, sub)
    decreases |s|
  {
    if s[..k][..|sub|] == sub {
      assert s[..|sub|] == sub;
    } else {
      assert s[..k][1..] == s[1..][..k - 1];
      ContainsInPrefix(s[1..], k - 1, sub);
    }
  }

  /** What `strip()` leaves of `s`, `s` contains. */
  lemma ContainsInStrip(s: string, sub: string)
    requires Contains(Strip(s), sub)
    ensures Contains(s, sub)
  {
    var l := LStrip(s);
    ContainsInPrefix(l, |RStrip(l)|, sub);
    ContainsInSuffix(s, |s| - |l|, sub);
  }

  /** So what `s` lacks, `strip()` of it lacks too. */
  lemma StripKeepsAbsent(s: string, sub: string)
    ensures Contains(Strip(s), sub) ==> Contains(s, sub)
  {
    if Contains(Strip(s), sub) {
      ContainsInStrip(s, sub);
    }
  }

  /** And what `s` lacks, a prefix of it lacks. */
  lemma PrefixKeepsAbsent(s: string, k: nat, sub: string)
    requires k <= |s|
    ensures Contains(s[..k], sub) ==> Contains(s, sub)
  {
    if Contains(s[..k], sub) {
      ContainsInPrefix(s, k, sub);
    }
  }

  /** `strip()` keeps only characters of its argument. */
  lemma StripChars(s: string)
    ensures forall c :: c in Strip(s) ==> c in s
  {
    var l := LStrip(s);
    var r := RStrip(l);
    assert forall i :: 0 <= i < |r| ==> r[i] == l[i];
    assert forall i :: 0 <= i < |l| ==> l[i] == s[|s| - |l| + i];
  }

  /** A prefix keeps only characters of the whole. */
  lemma PrefixChars(s: string, k: nat)
    requires k <= |s|
    ensures forall c :: c in s[..k] ==> c in s
  {
    assert forall i :: 0 <= i < k ==> s[..k][i] == s[i];
  }

  /** `s.split(sub)[0]` for a non-empty `sub`: the text before the first occurrence of
      `sub`, or all of `s` when `sub` does not occur. */
  function Before(s: string, sub: string): (r: string)
    requires sub != []
    ensures |r| <= |s| && r == s[..|r|]
    ensures !Contains(r, sub)
    ensures Contains(s, sub) ==> |r| + |sub| <= |s| && s[|r|..|r| + |sub|] == sub
    ensures !Contains(s, sub) ==> r == s
    decreases |s|
  {
    if |s| < |sub| then s
    else if s[..|sub|] == sub then []
    else
      var t := Before(s[1..], sub);
      var r := [s[0]] + t;
      assert r == s[..|r|];
      assert r[1..] == t;
      assert |sub| <= |r| ==> r[..|sub|] == s[..|sub|];
      r
  }

  /** `sub` occurs at the start of `s`. */
  predicate StartsWith(s: string, sub: string)
  {
    |sub| <= |s| && s[..|sub|] == sub
  }

  /** The occurrence `Before` stops at is the first: none starts inside the result. */
  lemma {:induction false} BeforeIsFirst(s: string, sub: string)
    requires sub != []
    ensures forall i :: 0 <= i < |Before(s, sub)| ==> !StartsWith(s[i..], sub)
    decreases |s|
  {
    if |s| >= |sub| && s[..|sub|] != sub {
      var u := s[1..];
      BeforeIsFirst(u, sub);
      var t := Before(u, sub);
      assert Before(s, sub) == [s[0]] + t;
      forall i | 0 <= i < 1 + |t|
        ensures !StartsWith(s[i..], sub)
      {
        if i == 0 {
          assert s[i..] == s;
        } else {
          var k := i - 1;
          assert !StartsWith(u[k..], sub);
          assert s[i..] == u[k..];
        }
      }
    }
  }

  /** A character that cannot start `sub` is kept, and the search goes on after it. */
  lemma BeforeKeep(c: char, t: string, sub: string)
    requires sub != [] && c != sub[0]
    ensures Before([c] + t, sub) == [c] + Before(t, sub)
  {
    assert ([c] + t)[1..] == t;
    if |sub| <= |t| + 1 {
      assert ([c] + t)[..|sub|][0] == c;
    }
  }

  /** A prefix without the first character of `sub` is kept whole, and the search goes on
      after it. */
  lemma {:induction false} BeforeKeepPrefix(a: string, t: string, sub: string)
    requires sub != [] && sub[0] !in a
    ensures Before(a + t, sub) == a + Before(t, sub)
    decreases |a|
  {
    if a != [] {
      var h, tail := a[0], a[1..];
      assert sub[0] !in tail by { assert forall ch :: ch in tail ==> ch in a; }
      BeforeKeepPrefix(tail, t, sub);
      BeforeKeep(h, tail + t, sub);
      var bt := Before(t, sub);
      calc {
        Before(a + t, sub);
        { ConsAppend(a, t); }
        [h] + Before(tail + t, sub);
        [h] + (tail + bt);
        { ConsAppend(a, bt); }
        a + bt;
      }
    } else {
      assert a + t == t;
    }
  }


  /** Python's `s.replace(old, new)` for a non-empty `pat`: occurrences are replaced left to
      right without overlapping, so `"   ".replace("  ", " ")` is `"  "`. */
  function Replace(s: string, pat: string, rep: string): (r: string)
    requires pat != []
    ensures forall ch :: ch in r ==> ch in s || ch in rep
    decreases |s|
  {
    if |s| < |pat| then s
    else if s[..|pat|] == pat then
      var t := Replace(s[|pat|..], pat, rep);
      assert forall ch :: ch in s[|pat|..] ==> ch in s;
      rep + t
    else
      var t := Replace(s[1..], pat, rep);
      assert forall ch :: ch in s[1..] ==> ch in s;
      [s[0]] + t
  }

  /** An occurrence at the front is replaced, and the scan goes on after it. */
  lemma ReplaceFront(pat: string, t: string, rep: string)
    requires pat != []
    ensures Replace(pat + t, pat, rep) == rep + Replace(t, pat, rep)
  {
    assert (pat + t)[..|pat|] == pat && (pat + t)[|pat|..] == t;
  }

  /** A character that cannot start an occurrence is copied, and the scan goes on after it. */
  lemma ReplaceKeep(c: char, t: string, pat: string, rep: string)
    requires pat != [] && c != pat[0]
    ensures Replace([c] + t, pat, rep) == [c] + Replace(t, pat, rep)
  {
    assert ([c] + t)[1..] == t;
    if |pat| <= |t| + 1 {
      assert ([c] + t)[..|pat|][0] == c;
    }
  }

  /** A prefix without the first character of `pat` is copied, and the scan goes on after it. */
  lemma {:induction false} ReplaceKeepPrefix(a: string, t: string, pat: string, rep: string)
    requires pat != [] && pat[0] !in a
    ensures Replace(a + t, pat, rep) == a + Replace(t, pat, rep)
    decreases |a|
  {
    if a != [] {
      var h, tail := a[0], a[1..];
      assert pat[0] !in tail by { assert forall ch :: ch in tail ==> ch in a; }
      ReplaceKeepPrefix(tail, t, pat, rep);
      ReplaceKeep(h, tail + t, pat, rep);
      var rt := Replace(t, pat, rep);
      calc {
        Replace(a + t, pat, rep);
        { ConsAppend(a, t); }
        [h] + Replace(tail + t, pat, rep);
        [h] + (tail + rt);
        { ConsAppend(a, rt); }
        a + rt;
      }
    } else {
      assert a + t == t;
    }
  }


  /** A string without the first character of `pat` holds no occurrence and is left alone. */
  lemma {:induction false} ReplaceNoStart(s: string, pat: string, rep: string)
    requires pat != [] && pat[0] !in s
    ensures Replace(s, pat, rep) == s
    decreases |s|
  {
    if s != [] {
      assert pat[0] !in s[1..] by { assert forall ch :: ch in s[1..] ==> ch in s; }
      ReplaceNoStart(s[1..], pat, rep);
      ReplaceKeep(s[0], s[1..], pat, rep);
      assert s == [s[0]] + s[1..];
    }
  }

  /** Occurrences do not overlap: three blanks hold one double blank, then one blank is left,
      so replacing double blanks by one leaves two. */
  lemma ReplaceDoesNotOverlap()
    ensures Replace("   ", "  ", " ") == "  "
  {
    ReplaceFront("  ", " ", " ");
    assert "   " == "  " + " ";
  }

  /** Replacing a single character by a string that does not hold it removes every copy. */
  lemma {:induction false} ReplaceRemovesChar(s: string, c: char, rep: string)
    requires c !in rep
    ensures c !in Replace(s, [c], rep)
    decreases |s|
  {
    if |s| >= 1 {
      if s[..1] == [c] {
        ReplaceRemovesChar(s[1..], c, rep);
      } else {
        ReplaceRemovesChar(s[1..], c, rep);
        assert s[0] != c;
      }
    }
  }

  /** A string without a character is left alone when that character is replaced. */
  lemma {:induction false} ReplaceAbsentChar(s: string, c: char, rep: string)
    requires c !in s
    ensures Replace(s, [c], rep) == s
    decreases |s|
  {
    if |s| >= 1 {
      assert s[..1] != [c] by { assert s[0] != c; }
      assert c !in s[1..] by { assert forall ch :: ch in s[1..] ==> ch in s; }
      ReplaceAbsentChar(s[1..], c, rep);
      assert s == [s[0]] + s[1..];
    }
  }

  // ---------------------------------------------------------------------------------------
  // split() and " ".join

  /** A field produced by `split()`: non-empty and free of whitespace. */
  predicate IsWord(w: string)
  {
    w != [] && forall i :: 0 <= i < |w| ==> !IsSpace(w[i])
  }

  /** The longest whitespace-free prefix of `s`. */
  function TakeWord(s: string): (w: string)
    ensures |w| <= |s| && w == s[..|w|]
    ensures forall i :: 0 <= i < |w| ==> !IsSpace(w[i])
    ensures |w| == |s| || IsSpace(s[|w|])
  {
    if s == [] || IsSpace(s[0]) then [] else [s[0]] + TakeWord(s[1..])
  }

  /** Python's `s.split()` with no separator: the maximal whitespace-free runs of `s`. */
  function Words(s: string): (ws: seq<string>)
    ensures forall k :: 0 <= k < |ws| ==> IsWord(ws[k])
    decreases |s|
  {
    var t := LStrip(s);
    if t == [] then []
    else
      var w := TakeWord(t);
      assert IsWord(w);
      var rest := t[|w|..];
      assert |rest| < |s|;
      var ws := Words(rest);
      assert forall k :: 0 <= k < |ws| ==> IsWord(ws[k]);
      [w] + ws
  }

  /** Python's `sep.join(ws)`. */
  function Join(ws: seq<string>, sep: string): string
  {
    if ws == [] then []
    else if |ws| == 1 then ws[0]
    else ws[0] + sep + Join(ws[1..], sep)
  }

  /** Taking a word off a word followed by whitespace or nothing gives back the word. */
  lemma {:induction false} TakeWordOfWord(w: string, rest: string)
    requires forall i :: 0 <= i < |w| ==> !IsSpace(w[i])
    requires rest == [] || IsSpace(rest[0])
    ensures TakeWord(w + rest) == w
    decreases |w|
  {
    if w == [] {
      assert w + rest == rest;
    } else {
      assert (w + rest)[1..] == w[1..] + rest;
      TakeWordOfWord(w[1..], rest);
    }
  }

  /** The shape of `" ".join(ws)` for words `ws`: empty exactly when `ws` is, no whitespace
      at either end, no whitespace but single plain spaces inside. */
  ghost predicate SpaceJoined(j: string)
  {
    && (j == [] || (!IsSpace(j[0]) && !IsSpace(j[|j| - 1])))
    && (forall i :: 0 <= i < |j| ==> j[i] == ' ' || !IsSpace(j[i]))
    && (forall i :: 0 <= i < |j| - 1 ==> j[i] == ' ' ==> j[i + 1] != ' ')
  }

  lemma {:induction false} JoinShape(ws: seq<string>)
    requires forall k :: 0 <= k < |ws| ==> IsWord(ws[k])
    ensures SpaceJoined(Join(ws, " "))
    ensures Join(ws, " ") == [] <==> ws == []
    ensures ws != [] ==> Join(ws, " ")[0] == ws[0][0]
  {
    if |ws| > 1 {
      JoinShape(ws[1..]);
      var w, t := ws[0], Join(ws[1..], " ");
      var j := w + " " + t;
      assert Join(ws, " ") == j;
      assert t != [] && t[0] == ws[1][0];
      forall i | 0 <= i < |j|
        ensures j[i] == ' ' || !IsSpace(j[i])
      {
        if i > |w| { assert j[i] == t[i - |w| - 1]; }
      }
      forall i | 0 <= i < |j| - 1
        ensures j[i] == ' ' ==> j[i + 1] != ' '
      {
        if i > |w| {
          assert j[i] == t[i - |w| - 1] && j[i + 1] == t[i - |w|];
        } else if i == |w| {
          assert j[i + 1] == t[0];
        } else if i == |w| - 1 {
          assert j[i] == w[i];
        } else {
          assert j[i] == w[i];
        }
      }
      assert j[|j| - 1] == t[|t| - 1];
    }
  }

  /** `split()` undoes `" ".join` on words. */
  lemma {:induction false} WordsOfJoin(ws: seq<string>)
    requires forall k :: 0 <= k < |ws| ==> IsWord(ws[k])
    ensures Words(Join(ws, " ")) == ws
  {
    if ws == [] {
    } else if |ws| == 1 {
      WordsOfWord(ws[0]);
    } else {
      var w, t := ws[0], Join(ws[1..], " ");
      assert t != [] && !IsSpace(t[0]) by {
        JoinShape(ws[1..]);
        assert IsWord(ws[1..][0]);
      }
      var tail := ws[1..];
      assert Join(ws, " ") == w + " " + t;
      WordsOfWordThen(w, t);
      WordsOfJoin(tail);
      assert Words(Join(ws, " ")) == [w] + tail;
      assert ws == [w] + tail by { ConsTail(ws); }
    }
  }

  /** A non-empty sequence is its head followed by its tail. */
  lemma ConsTail(ws: seq<string>)
    requires ws != []
    ensures ws == [ws[0]] + ws[1..]
  {
  }

  /** A single word splits into itself. */
  lemma WordsOfWord(w: string)
    requires IsWord(w)
    ensures Words(w) == [w]
  {
    assert LStrip(w) == w;
    TakeWordOfWord(w, []);
    assert w + [] == w;
    assert w[|w|..] == [];
  }

  /** Splitting a word, a space and a string that starts with no whitespace gives the word,
      then the fields of the string. */
  lemma WordsOfWordThen(w: string, t: string)
    requires IsWord(w) && t != [] && !IsSpace(t[0])
    ensures Words(w + " " + t) == [w] + Words(t)
  {
    var j := w + " " + t;
    assert LStrip(j) == j;
    assert j == w + (" " + t);
    TakeWordOfWord(w, " " + t);
    assert j[|w|..] == " " + t;
    assert LStrip(" " + t) == LStrip(t) by { assert (" " + t)[1..] == t; }
    assert LStrip(t) == t;
    assert Words(" " + t) == Words(t);
  }

  // ---------------------------------------------------------------------------------------
  // normalize_text

  /** One pass over `s` that drops whitespace and writes a single space between two runs of
      non-whitespace. `started` says whether a run has been written already, `pending`
      whether whitespace followed it. */
  function Collapse(s: string, started: bool, pending: bool): string
    decreases |s|
  {
    if s == [] then []
    else if IsSpace(s[0]) then Collapse(s[1..], started, started)
    else (if pending then " " else "") + [s[0]] + Collapse(s[1..], true, false)
  }

  /** The scraper's `normalize_text`, computed in one pass; `NormalizeTextIsComposition`
      proves it equal to the composition the Python code writes. */
  function NormalizeText(value: string): string
  {
    Collapse(value, false, false)
  }

  /** The composition as written: no-break spaces become spaces, the words of the result
      are joined with single spaces, and that is stripped. */
  function StripJoinSplit(value: string): string
  {
    Strip(Join(Words(Replace(value, [Nbsp], " ")), " "))
  }

  /** Leading whitespace is skipped; it turns a written run into a pending space. */
  lemma {:induction false} CollapseSkipsSpace(s: string, started: bool, pending: bool)
    ensures Collapse(s, started, pending)
         == Collapse(LStrip(s), started, if |LStrip(s)| < |s| then started else pending)
    decreases |s|
  {
    if s != [] && IsSpace(s[0]) {
      CollapseSkipsSpace(s[1..], started, started);
    }
  }

  /** A run of non-whitespace is written as it is, after the pending space if any. */
  lemma {:induction false} CollapseWord(w: string, rest: string, started: bool, pending: bool)
    requires IsWord(w)
    requires rest == [] || IsSpace(rest[0])
    ensures Collapse(w + rest, started, pending) == (if pending then " " else "") + w + Collapse(rest, true, false)
    decreases |w|
  {
    assert (w + rest)[0] == w[0] && (w + rest)[1..] == w[1..] + rest;
    if |w| == 1 {
      assert w[1..] + rest == rest;
      assert w == [w[0]];
    } else {
      CollapseWord(w[1..], rest, true, false);
      assert w == [w[0]] + w[1..];
    }
  }

  lemma SplitAt(t: string, k: nat)
    requires k <= |t|
    ensures t == t[..k] + t[k..]
  {
  }

  lemma Assoc4(a: string, b: string, c: string, d: string)
    ensures a + b + (c + d) == a + (b + c + d)
    ensures "" + b + (c + d) == b + c + d
    ensures "" + b + [] == b
  {
  }

  /** One step of `split()`: skip the whitespace, take a word, split the rest. */
  lemma WordsStep(s: string)
    requires LStrip(s) != []
    ensures Words(s) == [TakeWord(LStrip(s))] + Words(LStrip(s)[|TakeWord(LStrip(s))|..])
  {
  }

  /** Joining a word in front of a list of words. */
  lemma JoinCons(w: string, ws: seq<string>)
    ensures Join([w] + ws, " ") == if ws == [] then w else w + " " + Join(ws, " ")
  {
    assert ([w] + ws)[1..] == ws;
  }

  /** After a written run, what follows a whitespace character (or nothing) is the rest of
      the words, each after one space. */
  lemma {:induction false} CollapseAfterRun(s: string)
    requires s == [] || IsSpace(s[0])
    ensures Collapse(s, true, false) == if Words(s) == [] then [] else " " + Join(Words(s), " ")
    decreases |s|
  {
    var t := LStrip(s);
    CollapseSkipsSpace(s, true, false);
    if t == [] {
      assert Words(s) == [];
    } else {
      assert |t| < |s|;
      var w := TakeWord(t);
      var rest := t[|w|..];
      assert IsWord(w);
      SplitAt(t, |w|);
      assert Collapse(s, true, false) == Collapse(w + rest, true, true);
      CollapseWord(w, rest, true, true);
      CollapseAfterRun(rest);
      WordsStep(s);
      JoinCons(w, Words(rest));
      if Words(rest) != [] {
        Assoc4(" ", w, " ", Join(Words(rest), " "));
      } else {
        Assoc4(" ", w, [], []);
      }
    }
  }

  /** The one pass yields the words of `s` joined by single spaces. */
  lemma CollapseIsJoin(s: string)
    ensures Collapse(s, false, false) == Join(Words(s), " ")
  {
    var t := LStrip(s);
    CollapseSkipsSpace(s, false, false);
    if t == [] {
      assert Words(s) == [];
    } else {
      var w := TakeWord(t);
      var rest := t[|w|..];
      assert IsWord(w);
      SplitAt(t, |w|);
      assert Collapse(s, false, false) == Collapse(w + rest, false, false);
      CollapseWord(w, rest, false, false);
      assert Collapse(s, false, false) == "" + w + Collapse(rest, true, false);
      CollapseAfterRun(rest);
      WordsStep(s);
      assert Words(s) == [w] + Words(rest);
      JoinCons(w, Words(rest));
      if Words(rest) != [] {
        Assoc4("", w, " ", Join(Words(rest), " "));
      } else {
        Assoc4("", w, [], []);
      }
    }
  }

  /** Replacing no-break spaces by spaces changes nothing the pass can see: both are
      whitespace. */
  lemma {:induction false} CollapseIgnoresNbsp(s: string, started: bool, pending: bool)
    ensures Collapse(Replace(s, [Nbsp], " "), started, pending) == Collapse(s, started, pending)
    decreases |s|
  {
    if s != [] {
      var t := Replace(s[1..], [Nbsp], " ");
      if s[0] == Nbsp {
        assert s[..1] == [Nbsp];
        assert Replace(s, [Nbsp], " ") == " " + t;
        assert (" " + t)[1..] == t;
        CollapseIgnoresNbsp(s[1..], started, started);
      } else {
        assert s[..1] != [Nbsp];
        assert Replace(s, [Nbsp], " ") == [s[0]] + t;
        assert ([s[0]] + t)[1..] == t;
        CollapseIgnoresNbsp(s[1..], started, false);
        CollapseIgnoresNbsp(s[1..], true, false);
        CollapseIgnoresNbsp(s[1..], started, started);
      }
    }
  }

  /** What `normalize_text` promises of its result: no leading or trailing whitespace, no
      two consecutive spaces, no no-break space, and no whitespace other than plain spaces. */
  ghost predicate Normalized(s: string)
  {
    && (s == [] || (s[0] != ' ' && s[|s| - 1] != ' '))
    && (forall i :: 0 <= i < |s| - 1 ==> !(s[i] == ' ' && s[i + 1] == ' '))
    && Nbsp !in s
    && (forall i :: 0 <= i < |s| ==> s[i] == ' ' || !IsSpace(s[i]))
  }

  /** The one pass computes exactly the composition, which is the join of the words of the
      input with no-break spaces replaced; the result is normalized. */
  lemma NormalizeTextIsComposition(value: string)
    ensures NormalizeText(value) == StripJoinSplit(value)
    ensures NormalizeText(value) == Join(Words(Replace(value, [Nbsp], " ")), " ")
    ensures Normalized(NormalizeText(value))
  {
    var ws := Words(Replace(value, [Nbsp], " "));
    CollapseIgnoresNbsp(value, false, false);
    CollapseIsJoin(Replace(value, [Nbsp], " "));
    JoinShape(ws);
    var j := Join(ws, " ");
    StripTrimmed(j);
    assert forall i :: 0 <= i < |j| ==> j[i] != Nbsp;
  }

  /** The result of `normalize_text` is normalized. */
  lemma NormalizeTextNormalized(value: string)
    ensures Normalized(NormalizeText(value))
  {
    NormalizeTextIsComposition(value);
  }

  /** The candidate property from the scraper: a normalized string is a fixed point, so
      applying `normalize_text` twice is the same as applying it once. */
  lemma NormalizeTextIdempotent(value: string)
    ensures NormalizeText(NormalizeText(value)) == NormalizeText(value)
  {
    var ws := Words(Replace(value, [Nbsp], " "));
    NormalizeTextIsComposition(value);
    var n := Join(ws, " ");
    assert NormalizeText(value) == n;
    ReplaceAbsentChar(n, Nbsp, " ");
    WordsOfJoin(ws);
    assert Words(Replace(n, [Nbsp], " ")) == ws;
    NormalizeTextIsComposition(n);
  }

  /** A normalized string is empty exactly when its input held nothing but whitespace. */
  lemma {:induction false} NormalizeTextEmpty(value: string)
    ensures NormalizeText(value) == [] <==> Words(Replace(value, [Nbsp], " ")) == []
  {
    JoinShape(Words(Replace(value, [Nbsp], " ")));
    NormalizeTextIsComposition(value);
  }

  /** A blank character is skipped and leaves a separator pending once a word was seen. */
  lemma CollapseSpaceStep(c: char, t: string, started: bool, pending: bool)
    requires IsSpace(c)
    ensures Collapse([c] + t, started, pending) == Collapse(t, started, started)
  {
    assert ([c] + t)[1..] == t;
  }

  /** A no-break space inside a value and a trailing blank: `"4.70\u00a0GHz "` becomes
      `"4.70 GHz"`. */
  lemma NormalizeNbspExample(s: string)
    requires s == "4.70\U{a0}GHz "
    ensures NormalizeText(s) == "4.70 GHz"
  {
    var r2 := " ";
    var r1 := [Nbsp] + ("GHz" + r2);
    assert s == "4.70" + r1;
    CollapseSpaceStep(' ', [], true, false);
    CollapseWord("GHz", r2, true, true);
    CollapseSpaceStep(Nbsp, "GHz" + r2, true, false);
    CollapseWord("4.70", r1, false, false);
  }

  /** Three words with runs of blanks around and between them come out single-spaced. */
  lemma NormalizeThreeWords(w1: string, w2: string, w3: string)
    requires IsWord(w1) && IsWord(w2) && IsWord(w3)
    ensures NormalizeText(" " + w1 + " " + w2 + "  " + w3 + " ") == w1 + " " + w2 + " " + w3
  {
    var r3 := " ";
    var r2 := [' '] + ([' '] + (w3 + r3));
    var r1 := [' '] + (w2 + r2);
    assert " " + w1 + " " + w2 + "  " + w3 + " " == [' '] + (w1 + r1);
    CollapseSpaceStep(' ', [], true, false);
    CollapseWord(w3, r3, true, true);
    CollapseSpaceStep(' ', w3 + r3, true, true);
    CollapseSpaceStep(' ', [' '] + (w3 + r3), true, false);
    CollapseWord(w2, r2, true, true);
    CollapseSpaceStep(' ', w2 + r2, true, false);
    CollapseWord(w1, r1, false, false);
    CollapseSpaceStep(' ', w1 + r1, false, false);
  }

  /** A label with blanks around it and a double space inside: `" # of  Cores "` becomes
      `"# of Cores"`. */
  lemma NormalizeLabelExample(s: string)
    requires s == " # of  Cores "
    ensures NormalizeText(s) == "# of Cores"
  {
    var w1, w2, w3 := "#", "of", "Cores";
    assert IsWord(w1) && IsWord(w2) && IsWord(w3);
    assert s == " " + w1 + " " + w2 + "  " + w3 + " ";
    NormalizeThreeWords(w1, w2, w3);
    assert w1 + " " + w2 + " " + w3 == "# of Cores";
  }
}
