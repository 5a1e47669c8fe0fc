/** What a mask admits, told by its lines (Utils/IpMask.cpp). */
module IpMaskTheorems {
  import opened Bytes
  import opened IpMasks

  // ---------- how many parts a line has ----------

  function NonEmpty(parts: seq<string>): seq<string> {
    if parts == [] then [] else (if parts[0] == "" then [] else [parts[0]]) + NonEmpty(parts[1..])
  }

  /** Counting goes on behind a part and its dot. */
  lemma {:induction false} CountBehind(part: string, rest: string, inPart: bool)
    requires '.' !in part
    ensures CountParts(part, inPart) == if inPart || part != "" then 1 else 0
    ensures CountParts(part + "." + rest, inPart) == CountParts(part, inPart) + CountParts(rest, false)
  {
    if part == "" {
      assert "" + "." + rest == "." + rest && ("." + rest)[1..] == rest;
    } else {
      assert (part + "." + rest)[1..] == part[1..] + "." + rest;
      CountBehind(part[1..], rest, true);
    }
  }

  /** The parts that count are those between the dots that are not empty. */
  lemma {:induction false} PartsCounted(parts: seq<string>)
    requires parts != [] && DotFree(parts)
    ensures CountParts(Dotted(parts), false) == |NonEmpty(parts)|
  {
    NoDots(parts);
    if |parts| == 1 {
      CountBehind(parts[0], "", false);
      assert parts[1..] == [];
    } else {
      CountBehind(parts[0], Dotted(parts[1..]), false);
      PartsCounted(parts[1..]);
    }
  }

  // ---------- the lines ----------

  /** A line that begins with an exclamation mark prohibits, any other allows. */
  predicate Prohibits(line: string) {
    |line| > 0 && line[0] == '!'
  }

  function PatternText(line: string): string {
    if Prohibits(line) then line[1..] else line
  }

  predicate WellFormed(toInt: ToInt, line: string) {
    CountParts(line, false) <= 4 && Parse(toInt, PatternText(line), true).Some?
  }

  /** The pattern of a line matches an address place by place. */
  ghost predicate Covers(toInt: ToInt, line: string, a: Address) {
    WellFormed(toInt, line)
    && forall i :: 0 <= i < 4 ==>
         var p := Parse(toInt, PatternText(line), true).value; p.wild[i] || p.bytes[i] == a[i]
  }

  predicate ProhibitsAll(toInt: ToInt, line: string) {
    Prohibits(line) && WellFormed(toInt, line)
    && var p := Parse(toInt, PatternText(line), true).value; p.wild == [true, true, true, true]
  }

  lemma LineIsRead(toInt: ToInt, line: string)
    ensures ReadLine(toInt, line) ==
      if !WellFormed(toInt, line) then Malformed
      else if Prohibits(line) then Prohibited(Parse(toInt, PatternText(line), true).value)
      else Allowed(Parse(toInt, PatternText(line), true).value)
  {
    hide CountParts, Parse;
  }

  predicate MakesPattern(toInt: ToInt, line: string, prohibited: bool, p: Pattern) {
    WellFormed(toInt, line) && Prohibits(line) == prohibited && Parse(toInt, PatternText(line), true) == Some(p)
  }

  /** A list holds the patterns of exactly the lines of its kind. */
  lemma {:induction false} InPatterns(toInt: ToInt, lines: seq<string>, prohibited: bool, p: Pattern)
    ensures p in Patterns(toInt, lines, prohibited) <==>
      exists line <- lines :: MakesPattern(toInt, line, prohibited, p)
  {
    hide CountParts, Parse, ReadLine, WellFormed;
    if lines != [] {
      var before, last := lines[..|lines| - 1], lines[|lines| - 1];
      assert lines == before + [last];
      InPatterns(toInt, before, prohibited, p);
      LineIsRead(toInt, last);
      if WellFormed(toInt, last) {
        HasPattern(toInt, last);
      }
      LastOrBefore(toInt, before, last, prohibited, p);
    }
  }

  lemma LastOrBefore(toInt: ToInt, before: seq<string>, last: string, prohibited: bool, p: Pattern)
    ensures (exists line <- before + [last] :: MakesPattern(toInt, line, prohibited, p))
      <==> MakesPattern(toInt, last, prohibited, p) || exists line <- before :: MakesPattern(toInt, line, prohibited, p)
  {
    assert last in before + [last] && forall line <- before :: line in before + [last];
  }

  lemma NoneOfAKind(toInt: ToInt, lines: seq<string>, prohibited: bool)
    requires AllWellFormed(toInt, lines)
    ensures Patterns(toInt, lines, prohibited) == [] <==> forall line <- lines :: Prohibits(line) != prohibited
  {
    hide ReadLine, CountParts, Parse, WellFormed;
    var ps := Patterns(toInt, lines, prohibited);
    forall line <- lines ensures WellFormed(toInt, line) && Parse(toInt, PatternText(line), true).Some? {
      LineIsRead(toInt, line);
      HasPattern(toInt, line);
    }
    if ps != [] {
      InPatterns(toInt, lines, prohibited, ps[0]);
    }
    forall line <- lines | Prohibits(line) == prohibited ensures ps != [] {
      InPatterns(toInt, lines, prohibited, Parse(toInt, PatternText(line), true).value);
    }
  }

  lemma HasPattern(toInt: ToInt, line: string)
    requires WellFormed(toInt, line)
    ensures Parse(toInt, PatternText(line), true).Some?
  {
  }

  // ---------- what a mask admits ----------

  /** The mask is usable: all lines are well formed, and none prohibits everything. */
  ghost predicate Usable(toInt: ToInt, lines: seq<string>) {
    (forall line <- lines :: WellFormed(toInt, line)) && forall line <- lines :: !ProhibitsAll(toInt, line)
  }

  /** No line prohibits the address, and a line allows it; without any line that allows, it must be a loopback
      address. */
  ghost predicate Admitted(toInt: ToInt, lines: seq<string>, a: Address) {
    && (forall line <- lines :: Prohibits(line) ==> !Covers(toInt, line, a))
    && if forall line <- lines :: Prohibits(line) then a[0] == 127
       else exists line <- lines :: !Prohibits(line) && Covers(toInt, line, a)
  }

  lemma UsableIffParsed(toInt: ToInt, lines: seq<string>)
    ensures Usable(toInt, lines) <==>
      AllWellFormed(toInt, lines) && forall p <- Patterns(toInt, lines, true) :: !Everything(p)
  {
    hide ReadLine, CountParts, Parse, WellFormed, Patterns, ProhibitsAll;
    forall line <- lines ensures ReadLine(toInt, line).Malformed? <==> !WellFormed(toInt, line) {
      LineIsRead(toInt, line);
    }
    if AllWellFormed(toInt, lines) {
      forall p <- Patterns(toInt, lines, true) | Everything(p) ensures !Usable(toInt, lines) {
        InPatterns(toInt, lines, true, p);
        var line :| line in lines && MakesPattern(toInt, line, true, p);
        AllIsEverything(toInt, line);
      }
      forall line <- lines | ProhibitsAll(toInt, line)
        ensures exists p <- Patterns(toInt, lines, true) :: Everything(p)
      {
        AllIsEverything(toInt, line);
        HasPattern(toInt, line);
        InPatterns(toInt, lines, true, Parse(toInt, PatternText(line), true).value);
      }
    }
  }

  lemma AllIsEverything(toInt: ToInt, line: string)
    ensures ProhibitsAll(toInt, line) <==>
      Prohibits(line) && WellFormed(toInt, line) && Everything(Parse(toInt, PatternText(line), true).value)
  {
    hide CountParts, Parse;
  }

  lemma MatchedIffCovered(toInt: ToInt, lines: seq<string>, prohibited: bool, a: Address)
    requires AllWellFormed(toInt, lines)
    ensures AnyMatches(Patterns(toInt, lines, prohibited), a)
      <==> exists line <- lines :: Prohibits(line) == prohibited && Covers(toInt, line, a)
  {
    hide ReadLine, CountParts, Parse, Patterns;
    forall line <- lines ensures WellFormed(toInt, line) {
      LineIsRead(toInt, line);
    }
    if AnyMatches(Patterns(toInt, lines, prohibited), a) {
      var p :| p in Patterns(toInt, lines, prohibited) && Matches(p, a);
      InPatterns(toInt, lines, prohibited, p);
    }
    forall line <- lines | Prohibits(line) == prohibited && Covers(toInt, line, a)
      ensures AnyMatches(Patterns(toInt, lines, prohibited), a)
    {
      var p := Parse(toInt, PatternText(line), true).value;
      InPatterns(toInt, lines, prohibited, p);
      assert Matches(p, a);
    }
  }

  lemma LoopbackMatches(a: Address)
    ensures AnyMatches([LOOPBACK], a) <==> a[0] == 127
  {
    assert LOOPBACK in [LOOPBACK];
    assert Matches(LOOPBACK, a) <==> LOOPBACK.wild[0] || LOOPBACK.bytes[0] == a[0];
  }

  /** The whole of it: a mask made of these lines accepts an address iff the mask is usable, the address parses, and its
      lines admit it. */
  method Accepts(toInt: ToInt, lines: seq<string>, address: string) returns (accepted: bool)
    ensures accepted <==>
      var parsed := Parse(toInt, address, false);
      Usable(toInt, lines) && parsed.Some? && Admitted(toInt, lines, parsed.value.bytes)
  {
    hide Parse, Patterns, AllWellFormed, Usable, Admitted, AnyMatches;
    var mask := new IpMask(toInt, lines);
    accepted := mask.CheckIpAddress(toInt, address);
    UsableIffParsed(toInt, lines);
    if Usable(toInt, lines) && Parse(toInt, address, false).Some? {
      AdmittedIffListed(toInt, lines, Parse(toInt, address, false).value.bytes);
    }
  }

  lemma {:induction false} AdmittedIffListed(toInt: ToInt, lines: seq<string>, a: Address)
    requires AllWellFormed(toInt, lines)
    ensures var allowed := Patterns(toInt, lines, false);
      Admitted(toInt, lines, a) <==>
        !AnyMatches(Patterns(toInt, lines, true), a) && AnyMatches(if allowed == [] then [LOOPBACK] else allowed, a)
  {
    hide Parse, Patterns, AllWellFormed, AnyMatches, Covers, Prohibits;
    MatchedIffCovered(toInt, lines, true, a);
    MatchedIffCovered(toInt, lines, false, a);
    NoneOfAKind(toInt, lines, false);
    LoopbackMatches(a);
  }
}
