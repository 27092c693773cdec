/**
 * The string helpers of web_scripts/strutils.py that are defined there:
 * e-mail obfuscation for display, and parsing of comma-separated form fields.
 */
module StrUtils {
  import opened PyStr

  const At := " [at] "
  const Dot := " [dot] "

  /**
   * `obfuscate_email`: every '@' becomes " [at] ", then every '.' becomes
   * " [dot] ". The result holds neither character, grows by 5 per '@' and 6
   * per '.', and is the address itself when it holds neither.
   */
  function ObfuscateEmail(email: string): (r: string)
    ensures '@' !in r && '.' !in r
    ensures |r| == |email| + 5 * Count(email, '@') + 6 * Count(email, '.')
    ensures '@' !in email && '.' !in email ==> r == email
  {
    var named := Replace(email, '@', At);
    ReplaceKeepsCount(email, '@', At, '.');
    ReplaceAbsent(email, '@', At);
    ReplaceAbsent(email, '.', Dot);
    ReplaceChars(email, '@', At, '@');
    ReplaceChars(named, '.', Dot, '@');
    ReplaceChars(named, '.', Dot, '.');
    Replace(named, '.', Dot)
  }

  /** Obfuscation rewrites each part of an address independently. */
  lemma ObfuscateEmailAppend(a: string, b: string)
    ensures ObfuscateEmail(a + b) == ObfuscateEmail(a) + ObfuscateEmail(b)
  {
    ReplaceAppend(a, b, '@', At);
    ReplaceAppend(Replace(a, '@', At), Replace(b, '@', At), '.', Dot);
  }

  /** '@' becomes " [at] ", '.' becomes " [dot] ", and any other character stays. */
  lemma ObfuscateEmailChar(d: char)
    ensures ObfuscateEmail(['@']) == At
    ensures ObfuscateEmail(['.']) == Dot
    ensures d != '@' && d != '.' ==> ObfuscateEmail([d]) == [d]
  {
    ReplaceSingle('@', At, '.');
    ReplaceAbsent(At, '.', Dot);
    ReplaceSingle('@', At, d);
    ReplaceSingle('.', Dot, d);
    ReplaceAbsent(['.'], '@', At);
    ReplaceAbsent([d], '.', Dot);
  }

  /**
   * `split_comma_sep`: the comma-separated pieces of the input, each
   * stripped of surrounding whitespace. There is one piece more than there
   * are commas, so the result is never empty; no piece holds a comma or
   * starts or ends with whitespace.
   */
  function SplitCommaSep(input: string): (elements: seq<string>)
    ensures |elements| == Count(input, ',') + 1
    ensures forall k :: 0 <= k < |elements| ==> elements[k] == Strip(Split(input, ',')[k])
    ensures forall k :: 0 <= k < |elements| ==> ',' !in elements[k]
    ensures forall k :: 0 <= k < |elements| ==>
              elements[k] == [] || (!IsSpace(elements[k][0]) && !IsSpace(elements[k][|elements[k]| - 1]))
  {
    var pieces := Split(input, ',');
    seq(|pieces|, i requires 0 <= i < |pieces| => Strip(pieces[i]))
  }

  /**
   * Joining comma-free, already trimmed fields with ',' and splitting the
   * result again gives the fields back.
   */
  lemma SplitCommaSepJoin(fields: seq<string>)
    requires fields != []
    requires forall k :: 0 <= k < |fields| ==> ',' !in fields[k]
    requires forall k :: 0 <= k < |fields| ==>
               fields[k] == [] || (!IsSpace(fields[k][0]) && !IsSpace(fields[k][|fields[k]| - 1]))
    ensures SplitCommaSep(Join(fields, ',')) == fields
  {
    SplitJoin(fields, ',');
    forall k | 0 <= k < |fields|
      ensures Strip(fields[k]) == fields[k]
    {
      StripTrimmed(fields[k]);
    }
  }

  /** Whitespace around the fields is dropped: " a , b " gives "a" and "b". */
  lemma SplitCommaSepTrims()
    ensures SplitCommaSep(" a , b ") == ["a", "b"]
  {
    assert Join([" a ", " b "], ',') == " a , b ";
    SplitJoin([" a ", " b "], ',');
    StripPadded('a');
    StripPadded('b');
  }

  /** Stripping a character padded by one space on each side leaves the character. */
  lemma StripPadded(x: char)
    requires !IsSpace(x)
    ensures Strip([' ', x, ' ']) == [x]
  {
    var s := [' ', x, ' '];
    assert s[1..] == [x, ' '];
    assert LStrip(s) == [x, ' '];
    assert [x, ' '][..1] == [x];
    assert RStrip([x, ' ']) == [x];
  }

  /** The empty field gives one empty element. */
  lemma SplitCommaSepEmpty()
    ensures SplitCommaSep("") == [""]
  {
    assert Split("", ',') == [""];
  }
}
