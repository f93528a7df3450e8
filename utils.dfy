// The string helpers of js/shared/utils.js and js/utils.js: HTML escaping
// for a context without `document`, the replacement-table entity decoder
// used where there is no `DOMParser`, and regular-expression escaping.
//
// The `DOMParser` decoder and the `innerHTML` escaper of the page context
// are browser code; the model covers the replacement-table versions.

module Utils {

  import opened Common

  /** The chained replacements of `escapeHtml`, `&` first. */
  function EscapeSteps(s: string): string
  {
    ReplaceAll(ReplaceAll(ReplaceAll(ReplaceAll(ReplaceAll(s, "&", "&amp;"), "<", "&lt;"), ">", "&gt;"),
                          "\"", "&quot;"), "'", "&#039;")
  }

  /** `escapeHtml(str)` without `document`: "" for a missing or empty string. */
  function EscapeHtml(s: string): (r: string)
    ensures s == "" ==> r == ""
  {
    if s == "" then "" else EscapeSteps(s)
  }

  /** What each character becomes. */
  function EscapeChar(c: char): (r: string)
    ensures r != []
  {
    if c == '&' then "&amp;"
    else if c == '<' then "&lt;"
    else if c == '>' then "&gt;"
    else if c == '"' then "&quot;"
    else if c == '\'' then "&#039;"
    else [c]
  }

  /** The reference definition: every character escaped on its own. */
  function EscapeChars(s: string): string
  {
    if s == [] then [] else EscapeChar(s[0]) + EscapeChars(s[1..])
  }

  /** The chained replacements distribute over concatenation. */
  lemma EscapeStepsConcat(a: string, b: string)
    ensures EscapeSteps(a + b) == EscapeSteps(a) + EscapeSteps(b)
  {
    var a1, b1 := ReplaceAll(a, "&", "&amp;"), ReplaceAll(b, "&", "&amp;");
    ReplaceCharConcat(a, b, '&', "&amp;");
    var a2, b2 := ReplaceAll(a1, "<", "&lt;"), ReplaceAll(b1, "<", "&lt;");
    ReplaceCharConcat(a1, b1, '<', "&lt;");
    var a3, b3 := ReplaceAll(a2, ">", "&gt;"), ReplaceAll(b2, ">", "&gt;");
    ReplaceCharConcat(a2, b2, '>', "&gt;");
    var a4, b4 := ReplaceAll(a3, "\"", "&quot;"), ReplaceAll(b3, "\"", "&quot;");
    ReplaceCharConcat(a3, b3, '"', "&quot;");
    ReplaceCharConcat(a4, b4, '\'', "&#039;");
  }

  /** One replacement of a character the string does not hold. */
  lemma Untouched(s: string, c: char, r: string)
    requires c !in s
    ensures ReplaceAll(s, [c], r) == s
  {
    ReplaceAbsent(s, [c], r);
  }

  /** A one-character string under a one-character pattern. */
  lemma ReplaceOne(c: char, d: char, r: string)
    ensures ReplaceAll([c], [d], r) == if c == d then r else [c]
  {
    assert [c][1..] == [];
  }

  lemma EscapeStepsAmp()
    ensures EscapeSteps("&") == "&amp;"
  {
    ReplaceOne('&', '&', "&amp;");
    Untouched("&amp;", '<', "&lt;");
    Untouched("&amp;", '>', "&gt;");
    Untouched("&amp;", '"', "&quot;");
    Untouched("&amp;", '\'', "&#039;");
  }

  lemma EscapeStepsLt()
    ensures EscapeSteps("<") == "&lt;"
  {
    ReplaceOne('<', '&', "&amp;");
    ReplaceOne('<', '<', "&lt;");
    Untouched("&lt;", '>', "&gt;");
    Untouched("&lt;", '"', "&quot;");
    Untouched("&lt;", '\'', "&#039;");
  }

  lemma EscapeStepsGt()
    ensures EscapeSteps(">") == "&gt;"
  {
    ReplaceOne('>', '&', "&amp;");
    ReplaceOne('>', '<', "&lt;");
    ReplaceOne('>', '>', "&gt;");
    Untouched("&gt;", '"', "&quot;");
    Untouched("&gt;", '\'', "&#039;");
  }

  lemma EscapeStepsQuot()
    ensures EscapeSteps("\"") == "&quot;"
  {
    ReplaceOne('"', '&', "&amp;");
    ReplaceOne('"', '<', "&lt;");
    ReplaceOne('"', '>', "&gt;");
    ReplaceOne('"', '"', "&quot;");
    Untouched("&quot;", '\'', "&#039;");
  }

  lemma EscapeStepsApos()
    ensures EscapeSteps("'") == "&#039;"
  {
    ReplaceOne('\'', '&', "&amp;");
    ReplaceOne('\'', '<', "&lt;");
    ReplaceOne('\'', '>', "&gt;");
    ReplaceOne('\'', '"', "&quot;");
    ReplaceOne('\'', '\'', "&#039;");
  }

  lemma EscapeStepsPlain(c: char)
    requires c != '&' && c != '<' && c != '>' && c != '"' && c != '\''
    ensures EscapeSteps([c]) == [c]
  {
    ReplaceOne(c, '&', "&amp;");
    ReplaceOne(c, '<', "&lt;");
    ReplaceOne(c, '>', "&gt;");
    ReplaceOne(c, '"', "&quot;");
    ReplaceOne(c, '\'', "&#039;");
  }

  /** On a single character the chained replacements agree with `EscapeChar`. */
  lemma EscapeStepsChar(c: char)
    ensures EscapeSteps([c]) == EscapeChar(c)
  {
    if c == '&' {
      EscapeStepsAmp();
    } else if c == '<' {
      EscapeStepsLt();
    } else if c == '>' {
      EscapeStepsGt();
    } else if c == '"' {
      EscapeStepsQuot();
    } else if c == '\'' {
      EscapeStepsApos();
    } else {
      EscapeStepsPlain(c);
    }
  }

  /** `escapeHtml` escapes character by character. */
  lemma {:induction false} EscapeIsCharwise(s: string)
    ensures EscapeSteps(s) == EscapeChars(s)
  {
    if s == [] {
      Untouched([], '&', "&amp;");
      Untouched([], '<', "&lt;");
      Untouched([], '>', "&gt;");
      Untouched([], '"', "&quot;");
      Untouched([], '\'', "&#039;");
    } else {
      assert s == [s[0]] + s[1..];
      EscapeStepsConcat([s[0]], s[1..]);
      EscapeStepsChar(s[0]);
      EscapeIsCharwise(s[1..]);
    }
  }

  /** Escaped text holds none of the characters markup needs. */
  lemma {:induction false} EscapedIsInert(s: string)
    ensures var r := EscapeChars(s); '<' !in r && '>' !in r && '"' !in r && '\'' !in r
  {
    if s != [] {
      EscapedIsInert(s[1..]);
      var e := EscapeChar(s[0]);
      assert '<' !in e && '>' !in e && '"' !in e && '\'' !in e;
    }
  }

  /** `escapeHtml`'s output cannot open a tag or close an attribute. */
  lemma EscapeHtmlIsInert(s: string)
    ensures var r := EscapeHtml(s); '<' !in r && '>' !in r && '"' !in r && '\'' !in r
  {
    if s != "" {
      EscapeIsCharwise(s);
      EscapedIsInert(s);
    }
  }

  /** Text without any of the five characters passes `escapeHtml` unchanged. */
  lemma EscapeHtmlPlain(s: string)
    requires forall i :: 0 <= i < |s| ==> s[i] != '&' && s[i] != '<' && s[i] != '>' && s[i] != '"' && s[i] != '\''
    ensures EscapeHtml(s) == s
  {
    if s != "" {
      EscapeIsCharwise(s);
      EscapeCharsPlain(s);
    }
  }

  /** One of the five entities `escapeHtml` writes starts at position i. */
  predicate EntityAt(r: string, i: nat)
    requires i <= |r|
  {
    var t := r[i..];
    StartsWith(t, "&amp;") || StartsWith(t, "&lt;") || StartsWith(t, "&gt;") ||
    StartsWith(t, "&quot;") || StartsWith(t, "&#039;")
  }

  /** Within one escaped character an ampersand is the first character of an entity. */
  lemma EscapeCharAmp(c: char, rest: string, i: nat)
    requires i < |EscapeChar(c)| && EscapeChar(c)[i] == '&'
    ensures i == 0 && EntityAt(EscapeChar(c) + rest, 0)
  {
    var e := EscapeChar(c);
    var t := e + rest;
    assert t[..|e|] == e;
    assert t[0..] == t;
  }

  /** Every '&' in escaped text begins one of the five entities. */
  lemma {:induction false} EscapedAmpsStartEntities(s: string)
    ensures forall i :: 0 <= i < |EscapeChars(s)| && EscapeChars(s)[i] == '&' ==> EntityAt(EscapeChars(s), i)
  {
    if s != [] {
      var e, r' := EscapeChar(s[0]), EscapeChars(s[1..]);
      EscapedAmpsStartEntities(s[1..]);
      var r := EscapeChars(s);
      assert r == e + r';
      forall i | 0 <= i < |r| && r[i] == '&' ensures EntityAt(r, i) {
        if i < |e| {
          assert e[i] == '&';
          EscapeCharAmp(s[0], r', i);
        } else {
          var k := i - |e|;
          assert r[i..] == r'[k..];
          assert r'[k] == '&';
          assert EntityAt(r', k);
        }
      }
    }
  }

  /** `escapeHtml` leaves no bare ampersand: each one begins an entity. */
  lemma EscapeHtmlAmpsStartEntities(s: string)
    ensures var r := EscapeHtml(s);
      forall i :: 0 <= i < |r| && r[i] == '&' ==> EntityAt(r, i)
  {
    if s != "" {
      EscapeIsCharwise(s);
      EscapedAmpsStartEntities(s);
    }
  }

  /**
   * The fallback `decodeHtmlEntities` as written: "" for a missing or empty
   * string, then the chained replacements, `&amp;` first.
   */
  function DecodeAsWritten(s: string): string
  {
    if s == "" then ""
    else ReplaceAll(ReplaceAll(ReplaceAll(ReplaceAll(ReplaceAll(s, "&amp;", "&"), "&lt;", "<"), "&gt;", ">"),
                               "&quot;", "\""), "&#39;", "'")
  }

  /** As written the decoder leaves text without an ampersand as it is. */
  lemma AsWrittenDecodeWithoutAmp(s: string)
    requires '&' !in s
    ensures DecodeAsWritten(s) == s
  {
    ReplaceAbsent(s, "&amp;", "&");
    ReplaceAbsent(s, "&lt;", "<");
    ReplaceAbsent(s, "&gt;", ">");
    ReplaceAbsent(s, "&quot;", "\"");
    ReplaceAbsent(s, "&#39;", "'");
  }

  /** A pattern that is not a prefix and whose first character occurs only at the front. */
  lemma ReplaceNoMatch(s: string, p: string, r: string)
    requires |p| > 0 && s != [] && !StartsWith(s, p) && p[0] !in s[1..]
    ensures ReplaceAll(s, p, r) == s
  {
    if |s| >= |p| {
      ReplaceAbsent(s[1..], p, r);
      assert s == [s[0]] + s[1..];
    }
  }

  /** As written an apostrophe is escaped as `&#039;`, which the decoder leaves alone. */
  lemma AsWrittenKeepsEscapedApostrophe()
    ensures EscapeHtml("'") == "&#039;"
    ensures DecodeAsWritten("&#039;") == "&#039;"
  {
    EscapeStepsApos();
    var t := "&#039;";
    assert t[1..] == "#039;";
    assert t[..5] != "&amp;" by { assert t[1] == '#'; }
    ReplaceNoMatch(t, "&amp;", "&");
    assert t[..4] != "&lt;" by { assert t[1] == '#'; }
    ReplaceNoMatch(t, "&lt;", "<");
    assert t[..4] != "&gt;" by { assert t[1] == '#'; }
    ReplaceNoMatch(t, "&gt;", ">");
    assert t[..6] != "&quot;" by { assert t[1] == '#'; }
    ReplaceNoMatch(t, "&quot;", "\"");
    assert t[..5] != "&#39;" by { assert t[2] == '0'; }
    ReplaceNoMatch(t, "&#39;", "'");
  }

  /** Text without markup characters escapes to itself. */
  lemma {:induction false} EscapeCharsPlain(s: string)
    requires forall i :: 0 <= i < |s| ==> s[i] != '&' && s[i] != '<' && s[i] != '>' && s[i] != '"' && s[i] != '\''
    ensures EscapeChars(s) == s
  {
    if s != [] {
      EscapeCharsPlain(s[1..]);
      assert s == [s[0]] + s[1..];
    }
  }

  /** An ampersand before plain text is the only character escaped. */
  lemma EscapeAmpThenPlain(t: string)
    requires forall i :: 0 <= i < |t| ==> t[i] != '&' && t[i] != '<' && t[i] != '>' && t[i] != '"' && t[i] != '\''
    ensures EscapeHtml("&" + t) == "&amp;" + t
  {
    EscapeStepsConcat("&", t);
    EscapeStepsAmp();
    EscapeIsCharwise(t);
    EscapeCharsPlain(t);
  }

  /** `escapeHtml` turns the text `&lt;` into `&amp;lt;`. */
  lemma EscapeLtEntity()
    ensures EscapeHtml("&lt;") == "&amp;lt;"
  {
    var t := "lt;";
    assert "&lt;" == "&" + t;
    assert "&amp;lt;" == "&amp;" + t;
    EscapeAmpThenPlain(t);
  }

  /** A string that starts with the pattern has it replaced first. */
  lemma ReplacePrefix(p: string, t: string, r: string)
    requires |p| > 0
    ensures ReplaceAll(p + t, p, r) == r + ReplaceAll(t, p, r)
  {
    assert (p + t)[..|p|] == p && (p + t)[|p|..] == t;
  }

  /** As written an escaped `&lt;` is decoded twice, down to `<`. */
  lemma AsWrittenDecodesTwice()
    ensures EscapeHtml("&lt;") == "&amp;lt;"
    ensures DecodeAsWritten("&amp;lt;") == "<"
  {
    EscapeLtEntity();
    var t := "lt;";
    assert "&amp;lt;" == "&amp;" + t;
    ReplacePrefix("&amp;", t, "&");
    ReplaceAbsent(t, "&amp;", "&");
    assert "&" + t == "&lt;" + "";
    ReplacePrefix("&lt;", "", "<");
    ReplaceAbsent("", "&lt;", "<");
    ReplaceAbsent("<", "&gt;", ">");
    ReplaceAbsent("<", "&quot;", "\"");
    ReplaceAbsent("<", "&#39;", "'");
  }

  /**
   * The decoder as evidently intended: one left-to-right pass that turns
   * each entity into its character exactly once, and knows both spellings
   * of the apostrophe.
   */
  function Decode(s: string): string
    decreases |s|
  {
    if s == [] then []
    else if StartsWith(s, "&amp;") then "&" + Decode(s[5..])
    else if StartsWith(s, "&lt;") then "<" + Decode(s[4..])
    else if StartsWith(s, "&gt;") then ">" + Decode(s[4..])
    else if StartsWith(s, "&quot;") then "\"" + Decode(s[6..])
    else if StartsWith(s, "&#039;") then "'" + Decode(s[6..])
    else if StartsWith(s, "&#39;") then "'" + Decode(s[5..])
    else [s[0]] + Decode(s[1..])
  }

  /** Text that does not start with '&' decodes its first character as itself. */
  lemma DecodePlain(c: char, rest: string)
    requires c != '&'
    ensures Decode([c] + rest) == [c] + Decode(rest)
  {
    var t := [c] + rest;
    assert t[0] == c && t[1..] == rest;
    assert !StartsWith(t, "&amp;") && !StartsWith(t, "&lt;") && !StartsWith(t, "&gt;") by {
      if |t| >= 4 { assert t[..4][0] == c; }
      if |t| >= 5 { assert t[..5][0] == c; }
    }
    assert !StartsWith(t, "&quot;") && !StartsWith(t, "&#039;") && !StartsWith(t, "&#39;") by {
      if |t| >= 5 { assert t[..5][0] == c; }
      if |t| >= 6 { assert t[..6][0] == c; }
    }
  }

  lemma DecodeAmp(rest: string)
    ensures Decode("&amp;" + rest) == "&" + Decode(rest)
  {
    var t := "&amp;" + rest;
    assert t[..5] == "&amp;" && t[5..] == rest;
  }

  lemma DecodeLt(rest: string)
    ensures Decode("&lt;" + rest) == "<" + Decode(rest)
  {
    var t := "&lt;" + rest;
    assert t[..4] == "&lt;" && t[4..] == rest;
    assert !StartsWith(t, "&amp;") by { if |t| >= 5 { assert t[..5][1] == 'l'; } }
  }

  lemma DecodeGt(rest: string)
    ensures Decode("&gt;" + rest) == ">" + Decode(rest)
  {
    var t := "&gt;" + rest;
    assert t[..4] == "&gt;" && t[4..] == rest;
    assert !StartsWith(t, "&amp;") by { if |t| >= 5 { assert t[..5][1] == 'g'; } }
    assert !StartsWith(t, "&lt;") by { assert t[..4][1] == 'g'; }
  }

  lemma DecodeQuot(rest: string)
    ensures Decode("&quot;" + rest) == "\"" + Decode(rest)
  {
    var t := "&quot;" + rest;
    assert t[..6] == "&quot;" && t[6..] == rest;
    assert t[..5][1] == 'q' && t[..4][1] == 'q';
  }

  lemma DecodeApos(rest: string)
    ensures Decode("&#039;" + rest) == "'" + Decode(rest)
  {
    var t := "&#039;" + rest;
    assert t[..6] == "&#039;" && t[6..] == rest;
    assert t[..5][1] == '#' && t[..4][1] == '#' && t[..6][1] == '#';
  }

  /** Decoding an escaped character followed by more text. */
  lemma DecodeEscapedChar(c: char, rest: string)
    ensures Decode(EscapeChar(c) + rest) == [c] + Decode(rest)
  {
    if c == '&' {
      DecodeAmp(rest);
    } else if c == '<' {
      DecodeLt(rest);
    } else if c == '>' {
      DecodeGt(rest);
    } else if c == '"' {
      DecodeQuot(rest);
    } else if c == '\'' {
      DecodeApos(rest);
    } else {
      DecodePlain(c, rest);
    }
  }

  /** The corrected decoder undoes `escapeHtml` for every string. */
  lemma {:induction false} DecodeEscapeRoundTrip(s: string)
    ensures Decode(EscapeHtml(s)) == s
  {
    if s != "" {
      EscapeIsCharwise(s);
      DecodeEscapeCharsRoundTrip(s);
    }
  }

  lemma {:induction false} DecodeEscapeCharsRoundTrip(s: string)
    ensures Decode(EscapeChars(s)) == s
  {
    if s != [] {
      DecodeEscapedChar(s[0], EscapeChars(s[1..]));
      DecodeEscapeCharsRoundTrip(s[1..]);
      assert s == [s[0]] + s[1..];
    }
  }

  /**
   * The `DOMParser` version of `decodeHtmlEntities`. The parser's text is
   * a parameter, None when `parseFromString` throws; an empty parse falls
   * back to the input.
   */
  function ParserDecode(s: string, parsed: Option<string>): (r: string)
    ensures r == "" <==> s == ""
    ensures s != "" && parsed.Some? && parsed.value != "" ==> r == parsed.value
    ensures s != "" && (parsed.None? || parsed == Some("")) ==> r == s
  {
    if s == "" then ""
    else match parsed
      case None => s
      case Some(text) => if text != "" then text else s
  }

  /** The characters `escapeRegExp` prefixes with a backslash: `[.*+?^${}()|[\]\\]`. */
  predicate IsRegExpMeta(c: char)
  {
    c == '.' || c == '*' || c == '+' || c == '?' || c == '^' || c == '$' || c == '{' || c == '}' ||
    c == '(' || c == ')' || c == '|' || c == '[' || c == ']' || c == '\\'
  }

  /** `escapeRegExp(string)`: every metacharacter gets a backslash before it. */
  function EscapeRegExp(s: string): (r: string)
    ensures |r| == |s| + MetaCount(s)
    ensures MetaCount(s) == 0 ==> r == s
  {
    if s == [] then []
    else (if IsRegExpMeta(s[0]) then ['\\', s[0]] else [s[0]]) + EscapeRegExp(s[1..])
  }

  function MetaCount(s: string): nat
  {
    if s == [] then 0 else (if IsRegExpMeta(s[0]) then 1 else 0) + MetaCount(s[1..])
  }

  /**
   * A pattern that stands for literal text: ordinary characters, and
   * metacharacters only behind a backslash.
   */
  predicate IsLiteralPattern(p: string)
    decreases |p|
  {
    p == [] ||
    (!IsRegExpMeta(p[0]) && IsLiteralPattern(p[1..])) ||
    (|p| >= 2 && p[0] == '\\' && IsRegExpMeta(p[1]) && IsLiteralPattern(p[2..]))
  }

  /** The text a literal pattern matches: each backslash dropped. */
  function PatternText(p: string): string
    decreases |p|
  {
    if p == [] then []
    else if |p| >= 2 && p[0] == '\\' then [p[1]] + PatternText(p[2..])
    else [p[0]] + PatternText(p[1..])
  }

  /** An escaped string is a literal pattern, and the text it matches is the string itself. */
  lemma {:induction false} EscapeRegExpRoundTrip(s: string)
    ensures IsLiteralPattern(EscapeRegExp(s))
    ensures PatternText(EscapeRegExp(s)) == s
  {
    if s != [] {
      EscapeRegExpRoundTrip(s[1..]);
      var rest := EscapeRegExp(s[1..]);
      var p := EscapeRegExp(s);
      if IsRegExpMeta(s[0]) {
        assert p == ['\\', s[0]] + rest && p[2..] == rest;
      } else {
        assert p == [s[0]] + rest && p[1..] == rest;
      }
      assert s == [s[0]] + s[1..];
    }
  }
}
