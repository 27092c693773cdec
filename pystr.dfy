/**
 * The parts of Python's built-in `str` type that the project database's
 * helpers rely on: `isspace`, `split()`, `split(sep)`, `strip()`,
 * `replace` and `lower()`, together with a character count used to state
 * how `replace` changes a length. Each is defined on `seq<char>` and
 * characterised by its contract and the lemmas below it.
 */
module PyStr {

  /** `c.isspace()`: the 29 code points Python treats as whitespace. */
  predicate IsSpace(c: char)
  {
    ('\t' <= c <= '\r') || ('\U{1C}' <= c <= ' ') || c == '\U{85}' || c == '\U{A0}'
    || c == '\U{1680}' || ('\U{2000}' <= c <= '\U{200A}') || c == '\U{2028}' || c == '\U{2029}'
    || c == '\U{202F}' || c == '\U{205F}' || c == '\U{3000}'
  }

  predicate NoSpace(s: string)
  {
    forall i :: 0 <= i < |s| ==> !IsSpace(s[i])
  }

  /** `s.count(c)` for a single character. */
  function Count(s: string, c: char): nat
  {
    if s == [] then 0 else (if s[0] == c then 1 else 0) + Count(s[1..], c)
  }

  lemma {:induction false} CountAppend(a: string, b: string, c: char)
    ensures Count(a + b, c) == Count(a, c) + Count(b, c)
  {
    if a == [] {
      assert a + b == b;
    } else {
      assert (a + b)[1..] == a[1..] + b;
      CountAppend(a[1..], b, c);
    }
  }

  lemma {:induction false} CountAbsent(s: string, c: char)
    ensures Count(s, c) == 0 <==> c !in s
  {
    if s != [] {
      CountAbsent(s[1..], c);
      assert s == [s[0]] + s[1..];
    }
  }

  // ---------------------------------------------------------------------
  // strip()

  /** `s.lstrip()`: drops the leading whitespace of `s`. */
  function LStrip(s: string): (t: string)
    ensures |t| <= |s|
    ensures t == [] || !IsSpace(t[0])
  {
    if s != [] && IsSpace(s[0]) then LStrip(s[1..]) else s
  }

  /** What `lstrip()` keeps is a suffix of `s`, and all it drops is whitespace. */
  lemma {:induction false} LStripSuffix(s: string)
    ensures LStrip(s) == s[|s| - |LStrip(s)|..]
    ensures forall i :: 0 <= i < |s| - |LStrip(s)| ==> IsSpace(s[i])
  {
    if s != [] && IsSpace(s[0]) {
      LStripSuffix(s[1..]);
      forall i | 1 <= i < |s| - |LStrip(s)|
        ensures IsSpace(s[i])
      {
        assert s[i] == s[1..][i - 1];
      }
    }
  }

  /** `s.rstrip()`: drops the trailing whitespace of `s`. */
  function RStrip(s: string): (t: string)
    ensures |t| <= |s|
    ensures t == [] || !IsSpace(t[|t| - 1])
  {
    if s != [] && IsSpace(s[|s| - 1]) then RStrip(s[..|s| - 1]) else s
  }

  /** What `rstrip()` keeps is a prefix of `s`, and all it drops is whitespace. */
  lemma {:induction false} RStripPrefix(s: string)
    ensures RStrip(s) == s[..|RStrip(s)|]
    ensures forall i :: |RStrip(s)| <= i < |s| ==> IsSpace(s[i])
  {
    if s != [] && IsSpace(s[|s| - 1]) {
      RStripPrefix(s[..|s| - 1]);
      forall i | |RStrip(s)| <= i < |s| - 1
        ensures IsSpace(s[i])
      {
        assert s[i] == s[..|s| - 1][i];
      }
    }
  }

  /**
   * `s.strip()`: the slice of `s` left after removing whitespace at both
   * ends. It neither starts nor ends with whitespace, and only whitespace
   * lies outside it.
   */
  function Strip(s: string): (t: string)
    ensures t == [] || (!IsSpace(t[0]) && !IsSpace(t[|t| - 1]))
    ensures exists i, j :: && 0 <= i <= j <= |s| && t == s[i..j]
                          && (forall k :: 0 <= k < i ==> IsSpace(s[k]))
                          && (forall k :: j <= k < |s| ==> IsSpace(s[k]))
  {
    var l := LStrip(s);
    LStripSuffix(s);
    RStripPrefix(l);
    var t := RStrip(l);
    var i := |s| - |l|;
    var j := i + |t|;
    assert t == s[i..j];
    assert forall k :: j <= k < |s| ==> s[k] == l[k - i];
    t
  }

  /** Stripping leaves a string that has no whitespace at either end unchanged. */
  lemma StripTrimmed(s: string)
    requires s == [] || (!IsSpace(s[0]) && !IsSpace(s[|s| - 1]))
    ensures Strip(s) == s
  {
  }

  // ---------------------------------------------------------------------
  // split()

  /** The longest prefix of `s` free of whitespace. */
  function WordPrefix(s: string): (w: string)
    ensures |w| <= |s|
    ensures s != [] && !IsSpace(s[0]) ==> w != []
  {
    if s == [] || IsSpace(s[0]) then [] else [s[0]] + WordPrefix(s[1..])
  }

  /** The word prefix is a prefix, holds no whitespace, and stops only at whitespace or the end. */
  lemma {:induction false} WordPrefixFacts(s: string)
    ensures WordPrefix(s) == s[..|WordPrefix(s)|]
    ensures NoSpace(WordPrefix(s))
    ensures |WordPrefix(s)| == |s| || IsSpace(s[|WordPrefix(s)|])
  {
    if s != [] && !IsSpace(s[0]) {
      WordPrefixFacts(s[1..]);
      var w := WordPrefix(s);
      forall i | 1 <= i < |w|
        ensures !IsSpace(w[i])
      {
        assert w[i] == WordPrefix(s[1..])[i - 1];
      }
    }
  }

  /**
   * `s.split()` with no separator: the maximal runs of non-whitespace
   * characters, in order.
   */
  function SplitWhitespace(s: string): (words: seq<string>)
    ensures forall k :: 0 <= k < |words| ==> words[k] != [] && NoSpace(words[k])
    decreases |s|
  {
    var t := LStrip(s);
    if t == [] then []
    else
      var w := WordPrefix(t);
      WordPrefixFacts(t);
      [w] + SplitWhitespace(t[|w|..])
  }

  /**
   * Reference count of words, read off character by character: a word starts
   * at each non-whitespace character that is first in the string or follows
   * whitespace. `afterSpace` says whether the character before `s` (if any)
   * was whitespace.
   */
  function WordStarts(s: string, afterSpace: bool): nat
  {
    if s == [] then 0
    else (if afterSpace && !IsSpace(s[0]) then 1 else 0) + WordStarts(s[1..], IsSpace(s[0]))
  }

  lemma {:induction false} WordStartsSkipsSpace(s: string)
    ensures WordStarts(s, true) == WordStarts(LStrip(s), true)
  {
    if s != [] && IsSpace(s[0]) {
      WordStartsSkipsSpace(s[1..]);
    }
  }

  lemma {:induction false} WordStartsInsideWord(s: string)
    ensures WordStarts(s, false) == WordStarts(s[|WordPrefix(s)|..], true)
  {
    if s != [] && !IsSpace(s[0]) {
      WordStartsInsideWord(s[1..]);
      assert s[|WordPrefix(s)|..] == s[1..][|WordPrefix(s[1..])|..];
    }
  }

  /** `len(s.split())` equals the number of word starts in `s`. */
  lemma {:induction false} WordCount(s: string)
    ensures |SplitWhitespace(s)| == WordStarts(s, true)
    decreases |s|
  {
    WordStartsSkipsSpace(s);
    var t := LStrip(s);
    if t != [] {
      var w := WordPrefix(t);
      WordStartsInsideWord(t[1..]);
      assert t[1..][|WordPrefix(t[1..])|..] == t[|w|..];
      WordCount(t[|w|..]);
    }
  }

  lemma {:induction false} WordPrefixOfWord(w: string, rest: string)
    requires NoSpace(w)
    requires rest == [] || IsSpace(rest[0])
    ensures WordPrefix(w + rest) == w
  {
    if w == [] {
      assert w + rest == rest;
    } else {
      assert (w + rest)[1..] == w[1..] + rest;
      WordPrefixOfWord(w[1..], rest);
    }
  }

  /** `split()` looks only at what is left after the leading whitespace. */
  lemma SplitWhitespaceAfterLStrip(s: string, t: string)
    requires LStrip(s) == LStrip(t)
    ensures SplitWhitespace(s) == SplitWhitespace(t)
  {
  }

  /** A space-joined list of words starts with its first word's first character. */
  lemma JoinStartsWithWord(words: seq<string>)
    requires |words| >= 1 && words[0] != []
    ensures Join(words, ' ') != [] && Join(words, ' ')[0] == words[0][0]
  {
  }

  /** `split()` of a word followed by whitespace-led text: the word, then the split of the text. */
  lemma SplitWhitespaceLeadingWord(w: string, rest: string)
    requires w != [] && NoSpace(w)
    requires rest == [] || IsSpace(rest[0])
    ensures SplitWhitespace(w + rest) == [w] + SplitWhitespace(rest)
  {
    WordPrefixOfWord(w, rest);
    assert (w + rest)[|w|..] == rest;
  }

  lemma SplitWhitespaceSpaced(w: string, rest: string)
    requires w != [] && NoSpace(w)
    requires rest != [] && !IsSpace(rest[0])
    ensures SplitWhitespace(w + ([' '] + rest)) == [w] + SplitWhitespace(rest)
  {
    SplitWhitespaceLeadingWord(w, [' '] + rest);
    assert LStrip([' '] + rest) == LStrip(rest) by {
      assert ([' '] + rest)[1..] == rest;
    }
    SplitWhitespaceAfterLStrip([' '] + rest, rest);
  }

  /** `split()` of text that starts with whitespace ignores that character. */
  lemma SplitWhitespaceSkipSpace(s: string)
    requires s != [] && IsSpace(s[0])
    ensures SplitWhitespace(s) == SplitWhitespace(s[1..])
  {
    SplitWhitespaceAfterLStrip(s, s[1..]);
  }

  /** `split()` of a single word, and of the empty string. */
  lemma SplitWhitespaceWord(w: string)
    requires NoSpace(w)
    ensures SplitWhitespace(w) == (if w == [] then [] else [w])
  {
    if w != [] {
      SplitWhitespaceLeadingWord(w, []);
      assert w + [] == w;
    }
  }

  /** Text that is empty or led by whitespace stays led by whitespace when whitespace and more text follow. */
  lemma SpaceLedAppend(rest: string, c: char, b: string)
    requires IsSpace(c)
    requires rest == [] || IsSpace(rest[0])
    ensures IsSpace((rest + [c] + b)[0])
  {
    if rest == [] {
      assert (rest + [c] + b)[0] == c;
    } else {
      assert (rest + [c] + b)[0] == rest[0];
    }
  }

  /** `a`, led by the word `w`, then whitespace and `b`: the word splits off whole. */
  lemma {:induction false} SplitWhitespaceWordBeforeSpace(a: string, w: string, rest: string, c: char, b: string)
    requires a == w + rest && w != [] && NoSpace(w) && IsSpace(c)
    requires rest == [] || IsSpace(rest[0])
    ensures SplitWhitespace(a + [c] + b) == [w] + SplitWhitespace(rest + [c] + b)
    ensures SplitWhitespace(a) == [w] + SplitWhitespace(rest)
  {
    SplitWhitespaceLeadingWord(w, rest);
    SpaceLedAppend(rest, c, b);
    Regroup(a, w, rest, c, b);
    SplitWhitespaceLeadingWord(w, rest + [c] + b);
  }

  /** Regrouping `(w + rest) + [c] + b` as `w + (rest + [c] + b)`. */
  lemma Regroup(a: string, w: string, rest: string, c: char, b: string)
    requires a == w + rest
    ensures a + [c] + b == w + (rest + [c] + b)
  {
  }

  /**
   * The inductive step of `SplitWhitespaceAtSpace` for `a` led by the word
   * `w`: given the claim for what follows the word, it holds for `a`.
   */
  lemma {:induction false} SplitWhitespaceAtSpaceAfterWord(a: string, w: string, rest: string, c: char, b: string)
    requires a == w + rest && w != [] && NoSpace(w) && IsSpace(c)
    requires rest == [] || IsSpace(rest[0])
    requires SplitWhitespace(rest + [c] + b) == SplitWhitespace(rest) + SplitWhitespace(b)
    ensures SplitWhitespace(a + [c] + b) == SplitWhitespace(a) + SplitWhitespace(b)
  {
    SplitWhitespaceWordBeforeSpace(a, w, rest, c, b);
    ConsAssoc(SplitWhitespace(a + [c] + b), SplitWhitespace(a), w, SplitWhitespace(rest), SplitWhitespace(b));
  }

  /** Sequence regrouping: `[x] + (l + r)` is `([x] + l) + r`. */
  lemma ConsAssoc<T>(whole: seq<T>, front: seq<T>, x: T, l: seq<T>, r: seq<T>)
    requires whole == [x] + (l + r)
    requires front == [x] + l
    ensures whole == front + r
  {
  }

  /**
   * The inductive step of `SplitWhitespaceAtSpace` for `a` led by
   * whitespace: given the claim for `a[1..]`, it holds for `a`.
   */
  lemma {:induction false} SplitWhitespaceAtSpaceAfterSpace(a: string, c: char, b: string)
    requires a != [] && IsSpace(a[0])
    requires SplitWhitespace(a[1..] + [c] + b) == SplitWhitespace(a[1..]) + SplitWhitespace(b)
    ensures SplitWhitespace(a + [c] + b) == SplitWhitespace(a) + SplitWhitespace(b)
  {
    var s := a + [c] + b;
    assert s[0] == a[0];
    assert s[1..] == a[1..] + [c] + b;
    SplitWhitespaceSkipSpace(s);
    SplitWhitespaceSkipSpace(a);
  }

  /**
   * A whitespace character separates: `split()` of `a`, a whitespace
   * character, then `b`, is the split of `a` followed by the split of `b`.
   * With `SplitWhitespaceWord` this determines `split()` on every input.
   */
  lemma {:induction false} SplitWhitespaceAtSpace(a: string, c: char, b: string)
    requires IsSpace(c)
    ensures SplitWhitespace(a + [c] + b) == SplitWhitespace(a) + SplitWhitespace(b)
    decreases |a|
  {
    if a == [] {
      assert a + [c] + b == [c] + b;
      assert ([c] + b)[1..] == b;
      SplitWhitespaceSkipSpace([c] + b);
    } else if IsSpace(a[0]) {
      SplitWhitespaceAtSpace(a[1..], c, b);
      SplitWhitespaceAtSpaceAfterSpace(a, c, b);
    } else {
      var w := WordPrefix(a);
      WordPrefixFacts(a);
      var rest := a[|w|..];
      assert a == w + rest;
      SplitWhitespaceAtSpace(rest, c, b);
      SplitWhitespaceAtSpaceAfterWord(a, w, rest, c, b);
    }
  }

  /**
   * `' '.join(words).split() == words` for words that are non-empty and
   * free of whitespace.
   */
  lemma {:induction false} SplitWhitespaceJoin(words: seq<string>)
    requires forall k :: 0 <= k < |words| ==> words[k] != [] && NoSpace(words[k])
    ensures SplitWhitespace(Join(words, ' ')) == words
  {
    if |words| == 1 {
      SplitWhitespaceLeadingWord(words[0], []);
      assert words[0] + [] == words[0];
    } else if |words| > 1 {
      var rest := Join(words[1..], ' ');
      assert Join(words, ' ') == words[0] + ([' '] + rest);
      JoinStartsWithWord(words[1..]);
      SplitWhitespaceSpaced(words[0], rest);
      forall k | 0 <= k < |words| - 1
        ensures words[1..][k] != [] && NoSpace(words[1..][k])
      {
        assert words[1..][k] == words[k + 1];
      }
      SplitWhitespaceJoin(words[1..]);
    }
  }

  // ---------------------------------------------------------------------
  // split(sep)

  /**
   * `s.split(sep)` with an explicit one-character separator: the pieces
   * between separators, empty pieces included, so there is always one more
   * piece than separators.
   */
  function Split(s: string, sep: char): (parts: seq<string>)
    ensures |parts| == Count(s, sep) + 1
    ensures forall k :: 0 <= k < |parts| ==> sep !in parts[k]
  {
    if s == [] then [[]]
    else
      var rest := Split(s[1..], sep);
      if s[0] == sep then [[]] + rest
      else [[s[0]] + rest[0]] + rest[1..]
  }

  /** `sep.join(parts)`. */
  function Join(parts: seq<string>, sep: char): string
  {
    if parts == [] then []
    else if |parts| == 1 then parts[0]
    else parts[0] + [sep] + Join(parts[1..], sep)
  }

  /** A word free of `sep` is split off whole in front of the separator that follows it. */
  lemma {:induction false} SplitWordThenSep(w: string, sep: char, rest: string)
    requires sep !in w
    ensures Split(w + [sep] + rest, sep) == [w] + Split(rest, sep)
  {
    var s := w + [sep] + rest;
    if w == [] {
      assert s == [sep] + rest;
      assert s[1..] == rest;
    } else {
      SplitWordThenSep(w[1..], sep, rest);
      assert s[1..] == w[1..] + [sep] + rest;
      assert [w[0]] + w[1..] == w;
    }
  }

  /** A string free of `sep` splits into itself alone. */
  lemma {:induction false} SplitWord(w: string, sep: char)
    requires sep !in w
    ensures Split(w, sep) == [w]
  {
    if w != [] {
      SplitWord(w[1..], sep);
      assert [w[0]] + w[1..] == w;
    }
  }

  /** Splitting a `sep`-join of `sep`-free parts gives the parts back. */
  lemma {:induction false} SplitJoin(parts: seq<string>, sep: char)
    requires parts != []
    requires forall k :: 0 <= k < |parts| ==> sep !in parts[k]
    ensures Split(Join(parts, sep), sep) == parts
  {
    if |parts| == 1 {
      SplitWord(parts[0], sep);
    } else {
      var tail := parts[1..];
      forall k | 0 <= k < |tail|
        ensures sep !in tail[k]
      {
        assert tail[k] == parts[k + 1];
      }
      SplitJoin(tail, sep);
      SplitWordThenSep(parts[0], sep, Join(tail, sep));
      assert parts == [parts[0]] + tail;
    }
  }

  /** Joining the pieces of `s.split(sep)` with `sep` gives back `s`. */
  lemma {:induction false} JoinSplit(s: string, sep: char)
    ensures Join(Split(s, sep), sep) == s
  {
    if s != [] {
      var rest := Split(s[1..], sep);
      JoinSplit(s[1..], sep);
      if s[0] == sep {
        assert Split(s, sep)[1..] == rest;
      } else {
        var parts := Split(s, sep);
        if |rest| == 1 {
          assert s == [s[0]] + s[1..];
        } else {
          assert parts[1..] == rest[1..];
          assert Join(rest, sep) == rest[0] + [sep] + Join(rest[1..], sep);
          assert s == [s[0]] + s[1..];
        }
      }
    }
  }

  // ---------------------------------------------------------------------
  // replace(old, new) with a one-character `old`

  /** `s.replace(c, r)`: every occurrence of `c` becomes `r`. */
  function Replace(s: string, c: char, r: string): (t: string)
    ensures |t| == |s| + Count(s, c) * (|r| - 1)
  {
    if s == [] then []
    else (if s[0] == c then r else [s[0]]) + Replace(s[1..], c, r)
  }

  /** Replacing distributes over concatenation: each part is rewritten in place. */
  lemma {:induction false} ReplaceAppend(a: string, b: string, c: char, r: string)
    ensures Replace(a + b, c, r) == Replace(a, c, r) + Replace(b, c, r)
  {
    if a != [] {
      assert (a + b)[0] == a[0];
      assert (a + b)[1..] == a[1..] + b;
      ReplaceAppend(a[1..], b, c, r);
    } else {
      assert a + b == b;
    }
  }

  /** A single occurrence of `c` becomes exactly `r`; any other character stays. */
  lemma ReplaceSingle(c: char, r: string, d: char)
    ensures Replace([c], c, r) == r
    ensures d != c ==> Replace([d], c, r) == [d]
  {
    assert [c][1..] == [];
    assert [d][1..] == [];
  }

  /** A character of the result is a character of `s` other than `c`, or one of `r`. */
  lemma {:induction false} ReplaceChars(s: string, c: char, r: string, d: char)
    ensures d in Replace(s, c, r) ==> (d in s && d != c) || d in r
  {
    if s != [] {
      ReplaceChars(s[1..], c, r, d);
      assert d in s[1..] ==> d in s;
    }
  }

  /** Replacing `c` leaves the count of any other character absent from `r` unchanged. */
  lemma {:induction false} ReplaceKeepsCount(s: string, c: char, r: string, d: char)
    requires d != c && d !in r
    ensures Count(Replace(s, c, r), d) == Count(s, d)
  {
    if s != [] {
      var head := if s[0] == c then r else [s[0]];
      CountAppend(head, Replace(s[1..], c, r), d);
      CountAbsent(r, d);
      ReplaceKeepsCount(s[1..], c, r, d);
    }
  }

  /** Replacing a character that does not occur changes nothing. */
  lemma {:induction false} ReplaceAbsent(s: string, c: char, r: string)
    ensures c !in s ==> Replace(s, c, r) == s
  {
    if s != [] && c !in s {
      assert c !in s[1..];
      ReplaceAbsent(s[1..], c, r);
      assert s == [s[0]] + s[1..];
    }
  }

  // ---------------------------------------------------------------------
  // lower()

  predicate IsUpper(c: char)
  {
    'A' <= c <= 'Z'
  }

  /** ASCII case folding of one character: an upper-case letter moves 32 code points down to its lower-case partner. */
  function LowerChar(c: char): (d: char)
    ensures IsUpper(c) ==> d == (c as int + 32) as char
    ensures !IsUpper(c) ==> d == c
    ensures !IsUpper(d)
  {
    if 'A' <= c <= 'Z' then (c as int - 'A' as int + 'a' as int) as char else c
  }

  /** `a` and `b` are the same character, or the same ASCII letter in different case. */
  predicate SameUpToCase(a: char, b: char)
  {
    || a == b
    || (IsUpper(a) && b as int == a as int + 32)
    || (IsUpper(b) && a as int == b as int + 32)
  }

  /** `s.lower()`, restricted to ASCII letters. */
  function Lower(s: string): (t: string)
    ensures |t| == |s|
    ensures forall i :: 0 <= i < |t| ==> !IsUpper(t[i])
    ensures forall i :: 0 <= i < |s| ==> SameUpToCase(s[i], t[i])
  {
    seq(|s|, i requires 0 <= i < |s| => LowerChar(s[i]))
  }

  lemma LowerCharEqual(a: char, b: char)
    ensures LowerChar(a) == LowerChar(b) <==> SameUpToCase(a, b)
  {
  }

  /**
   * Two strings are equal after `lower()` exactly when they have the same
   * length and agree character by character up to the case of ASCII letters.
   */
  lemma LowerEqual(a: string, b: string)
    ensures Lower(a) == Lower(b) <==> |a| == |b| && forall i :: 0 <= i < |a| ==> SameUpToCase(a[i], b[i])
  {
    if |a| == |b| {
      forall i | 0 <= i < |a|
        ensures Lower(a)[i] == Lower(b)[i] <==> SameUpToCase(a[i], b[i])
      {
        LowerCharEqual(a[i], b[i]);
      }
      if forall i :: 0 <= i < |a| ==> SameUpToCase(a[i], b[i]) {
        assert forall i :: 0 <= i < |a| ==> Lower(a)[i] == Lower(b)[i];
      }
    }
  }

  /** Lower-casing twice is lower-casing once. */
  lemma LowerIdempotent(s: string)
    ensures Lower(Lower(s)) == Lower(s)
  {
  }

}
