/** escapeHtml and unescapeHtml (ThirdParty/mustache/mustache.cpp). */
module HtmlEscape {

  /** What replaces a character; nothing for most. */
  function Entity(c: char): string {
    if c == '&' then "&amp;" else if c == '<' then "&lt;" else if c == '>' then "&gt;"
    else if c == '"' then "&quot;" else ""
  }

  function EscapeChar(c: char): string {
    if Entity(c) == "" then [c] else Entity(c)
  }

  function Escape(s: string): string {
    if s == "" then "" else EscapeChar(s[0]) + Escape(s[1..])
  }

  /** The loop edits the string in place and steps over what it put in. */
  method EscapeHtml(input: string) returns (escaped: string)
    ensures escaped == Escape(input)
  {
    hide Entity, Escape;
    escaped := input;
    var i := 0;
    ghost var (out, left) := ("", input);
    while i < |escaped|
      invariant |out| == i && escaped == out + left && out + Escape(left) == Escape(input)
      decreases |left|
    {
      var replacement := Entity(escaped[i]);
      assert escaped[i] == left[0] && escaped[..i] == out && escaped[i + 1..] == left[1..];
      EscapeFirst(out, left);
      if replacement != "" {
        escaped := escaped[..i] + replacement + escaped[i + 1..];
        i := i + |replacement|;
      } else {
        i := i + 1;
        assert left == [left[0]] + left[1..];
      }
      out, left := out + EscapeChar(left[0]), left[1..];
    }
    NothingToEscape(left);
    assert out + "" == out;
  }

  lemma EscapeFirst(out: string, left: string)
    requires left != ""
    ensures out + Escape(left) == out + EscapeChar(left[0]) + Escape(left[1..])
  {
  }

  lemma NothingToEscape(s: string)
    requires s == ""
    ensures Escape(s) == ""
  {
  }

  /** What stands for each of the four characters. */
  lemma CharacterTable(c: char)
    ensures EscapeChar(c) == match c
      case '&' => "&amp;" case '<' => "&lt;" case '>' => "&gt;" case '"' => "&quot;" case _ => [c]
  {
  }

  /** What escaping is for: nothing is left in the text that markup could begin or end with, nor a quotation mark; and
      every other character is still there. */
  lemma {:induction false} NoMarkupLeft(s: string, c: char)
    ensures c in Escape(s) && c in ['<', '>', '"'] ==> false
    ensures c in s && c !in ['<', '>', '"'] ==> c in Escape(s)
  {
    hide EscapeChar;
    if s != "" {
      NoMarkupLeft(s[1..], c);
      CharacterTable(s[0]);
    }
  }

  /** QString::replace: every occurrence from the left. */
  function Replace(s: string, before: string, after: string): string
    requires before != ""
  {
    if |s| < |before| then s
    else if s[..|before|] == before then after + Replace(s[|before|..], before, after)
    else [s[0]] + Replace(s[1..], before, after)
  }

  function UnescapeHtml(escaped: string): string {
    var s1 := Replace(escaped, "&lt;", "<");
    var s2 := Replace(s1, "&gt;", ">");
    var s3 := Replace(s2, "&quot;", "\"");
    Replace(s3, "&amp;", "&")
  }

  // ---------- round trip ----------

  /** Escaping only the characters of a set. */
  function EscapeOnly(chars: set<char>, s: string): string {
    if s == "" then ""
    else (if s[0] in chars then EscapeChar(s[0]) else [s[0]]) + EscapeOnly(chars, s[1..])
  }

  const ALL: set<char> := {'&', '<', '>', '"'}

  lemma {:induction false} EscapeIsEscapeOnlyAll(s: string)
    ensures Escape(s) == EscapeOnly(ALL, s)
  {
    if s != "" {
      EscapeIsEscapeOnlyAll(s[1..]);
    }
  }

  lemma {:induction false} EscapeOnlyNone(s: string)
    ensures EscapeOnly({}, s) == s
  {
    if s != "" {
      EscapeOnlyNone(s[1..]);
    }
  }

  /** Text without an ampersand is passed over. */
  lemma {:induction false} ReplacePasses(text: string, rest: string, before: string, after: string)
    requires before != "" && before[0] == '&' && '&' !in text
    ensures Replace(text + rest, before, after) == text + Replace(rest, before, after)
  {
    if text == "" {
      assert text + rest == rest;
    } else {
      assert (text + rest)[1..] == text[1..] + rest && text[0] in text;
      ReplacePasses(text[1..], rest, before, after);
      if |text + rest| >= |before| {
        assert (text + rest)[..|before|][0] == text[0];
      } else {
        assert Replace(rest, before, after) == rest;
      }
    }
  }

  lemma ReplaceHits(before: string, rest: string, after: string)
    requires before != ""
    ensures Replace(before + rest, before, after) == after + Replace(rest, before, after)
  {
    assert (before + rest)[..|before|] == before && (before + rest)[|before|..] == rest;
  }

  lemma EntityShape(c: char)
    requires c in ALL
    ensures var e := Entity(c); |e| >= 4 && e[0] == '&' && '&' !in e[1..] && e == ['&'] + e[1..]
    ensures Entity(c)[1] == if c == '&' then 'a' else if c == '<' then 'l' else if c == '>' then 'g' else 'q'
  {
  }

  /** The entity of one character is not taken for that of another. */
  lemma ReplaceMisses(c: char, d: char, rest: string, after: string)
    requires c in ALL && d in ALL && c != d
    ensures Replace(Entity(d) + rest, Entity(c), after) == Entity(d) + Replace(rest, Entity(c), after)
  {
    var (s, e) := (Entity(d) + rest, Entity(c));
    EntityShape(c);
    EntityShape(d);
    assert s[0] == '&' && s[1..] == Entity(d)[1..] + rest && s[1] == Entity(d)[1] != e[1];
    ReplacePasses(Entity(d)[1..], rest, e, after);
    assert |s| >= |e| ==> s[..|e|][1] == s[1];
    if |s| < |e| {
      assert Replace(rest, e, after) == rest;
    } else {
      assert ['&'] + (Entity(d)[1..] + Replace(rest, e, after)) == Entity(d) + Replace(rest, e, after);
    }
  }

  /** Undoing one entity: as long as the ampersand is escaped too, or is the one undone last. */
  lemma {:induction false} UndoOne(chars: set<char>, c: char, s: string)
    requires c in chars && chars <= ALL && '&' in chars && (c == '&' ==> chars == {'&'})
    ensures Replace(EscapeOnly(chars, s), Entity(c), [c]) == EscapeOnly(chars - {c}, s)
  {
    if s != "" {
      UndoOne(chars, c, s[1..]);
      var rest := EscapeOnly(chars, s[1..]);
      if s[0] == c {
        ReplaceHits(Entity(c), rest, [c]);
      } else if s[0] in chars {
        ReplaceMisses(c, s[0], rest, [c]);
      } else {
        ReplacePasses([s[0]], rest, Entity(c), [c]);
      }
    }
  }

  /** Unescaping gives back every escaped string. The order of the replacements is what makes it true: with the
      ampersand first, the text "&lt;" would come back as "<". */
  lemma {:induction false} EscapeRoundTrip(s: string)
    ensures UnescapeHtml(Escape(s)) == s
  {
    EscapeIsEscapeOnlyAll(s);
    UndoOne(ALL, '<', s);
    UndoOne(ALL - {'<'}, '>', s);
    UndoOne(ALL - {'<'} - {'>'}, '"', s);
    assert ALL - {'<'} - {'>'} - {'"'} == {'&'} && {'&'} - {'&'} == {};
    UndoOne({'&'}, '&', s);
    EscapeOnlyNone(s);
  }
}
