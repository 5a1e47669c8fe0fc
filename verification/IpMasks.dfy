/** The word arithmetic of IpMask (Utils/IpMask.cpp): four bytes and the unsigned int they share a union with. */
module IpWords {

  predicate Within(a: bv8, m: bv8) {
    a & m == a
  }

  /** The unsigned int of the union. */
  function Word(b0: bv8, b1: bv8, b2: bv8, b3: bv8): bv32 {
    (b0 as bv32) | (b1 as bv32 << 8) | (b2 as bv32 << 16) | (b3 as bv32 << 24)
  }

  predicate WordCovered(a: bv32, m: bv32) {
    a & m == a
  }

  lemma WordThenBytes(a0: bv8, a1: bv8, a2: bv8, a3: bv8, m0: bv8, m1: bv8, m2: bv8, m3: bv8)
    requires WordCovered(Word(a0, a1, a2, a3), Word(m0, m1, m2, m3))
    ensures Within(a0, m0) && Within(a1, m1) && Within(a2, m2) && Within(a3, m3)
  {
  }

  lemma BytesThenWord(a0: bv8, a1: bv8, a2: bv8, a3: bv8, m0: bv8, m1: bv8, m2: bv8, m3: bv8)
    requires Within(a0, m0) && Within(a1, m1) && Within(a2, m2) && Within(a3, m3)
    ensures WordCovered(Word(a0, a1, a2, a3), Word(m0, m1, m2, m3))
  {
  }

  /** The AND test on the words. */
  method WordWithin(a0: bv8, a1: bv8, a2: bv8, a3: bv8, m0: bv8, m1: bv8, m2: bv8, m3: bv8) returns (within: bool)
    ensures within == (Within(a0, m0) && Within(a1, m1) && Within(a2, m2) && Within(a3, m3))
  {
    hide Within, Word, WordCovered;
    within := WordCovered(Word(a0, a1, a2, a3), Word(m0, m1, m2, m3));
    if within {
      WordThenBytes(a0, a1, a2, a3, m0, m1, m2, m3);
    } else if Within(a0, m0) && Within(a1, m1) && Within(a2, m2) && Within(a3, m3) {
      BytesThenWord(a0, a1, a2, a3, m0, m1, m2, m3);
    }
  }

  /** The OR test on a byte, within the mask. */
  method Differs(a: bv8, m: bv8) returns (differs: bool)
    requires Within(a, m)
    ensures differs == (m != a)
  {
    var tst := a | m;
    differs := tst != a;
  }

  lemma MatchingIsWithin(a: bv8, m: bv8)
    ensures m == 0xFF || m == a ==> Within(a, m)
  {
  }
}

/** IpMask (Utils/IpMask.cpp): wildcard patterns of IP addresses, those with a leading "!" prohibiting. */
module IpMasks {
  import opened Bytes
  import opened IpWords

  /** A parsed address or pattern: a wildcard flag and a byte for each of the four places. */
  datatype Binary = Binary(wild: seq<bool>, bytes: seq<bv8>)

  /** What parsing makes: four places, 0xFF where there is a wildcard. */
  type Pattern = b: Binary |
    |b.wild| == 4 && |b.bytes| == 4 && forall i :: 0 <= i < 4 && b.wild[i] ==> b.bytes[i] == 0xFF
    witness LOOPBACK

  type Address = a: seq<bv8> | |a| == 4 witness [0, 0, 0, 0]

  /** A pattern matches an address place by place. */
  ghost predicate Matches(p: Pattern, address: Address) {
    forall i :: 0 <= i < 4 ==> p.wild[i] || p.bytes[i] == address[i]
  }

  predicate Everything(p: Pattern) {
    p.wild[0] && p.wild[1] && p.wild[2] && p.wild[3]
  }

  /** 127.*.*.*, the pattern that is allowed when none is given. */
  const LOOPBACK := Binary([false, true, true, true], [127, 0xFF, 0xFF, 0xFF])

  // ---------- parsing ----------

  /** QString::toInt is a parameter: what number a text stands for, if any. */
  type ToInt = string -> Option<int>

  function IndexOfDot(s: string, start: nat): (k: Option<nat>)
    requires start <= |s|
    ensures k.Some? ==> start <= k.value < |s| && s[k.value] == '.' && '.' !in s[start..k.value]
    ensures k.None? ==> '.' !in s[start..]
    decreases |s| - start
  {
    if start == |s| then None
    else if s[start] == '.' then Some(start)
    else
      assert s[start..] == [s[start]] + s[start + 1..];
      var k := IndexOfDot(s, start + 1);
      assert k.Some? ==> s[start..k.value] == [s[start]] + s[start + 1..k.value];
      k
  }

  /** The texts between the dots: at most four, the last one up to the fourth dot or the end. */
  function Parts(s: string, start: nat, count: nat): seq<string>
    requires start <= |s|
    decreases count
  {
    if count == 0 then []
    else match IndexOfDot(s, start)
      case None => [s[start..]]
      case Some(k) => [s[start..k]] + Parts(s, k + 1, count - 1)
  }

  predicate Star(part: string) {
    part != "" && part[0] == '*'
  }

  function Octet(toInt: ToInt, part: string): Option<bv8> {
    var n := toInt(part);
    if n.Some? && 0 <= n.value <= 255 then Some(n.value as bv8) else None
  }

  /** The places from the given parts on. A star (with whatever follows it) is a wildcard; one in the last part
      stands for all places that are left. */
  function Places(toInt: ToInt, useMatch: bool, parts: seq<string>, places: nat): (b: Option<Binary>)
    ensures b.Some? ==> |b.value.wild| == |b.value.bytes| == places
    ensures b.Some? ==> forall i :: 0 <= i < places && b.value.wild[i] ==> useMatch && b.value.bytes[i] == 0xFF
  {
    if places == 0 then Some(Binary([], []))
    else if parts == [] then None
    else if useMatch && Star(parts[0]) then
      if |parts| == 1 then Some(Binary(seq(places, _ => true), seq(places, _ => 0xFF)))
      else AddPlace(true, 0xFF, Places(toInt, useMatch, parts[1..], places - 1))
    else if |parts| == 1 && places > 1 then None
    else match Octet(toInt, parts[0])
      case None => None
      case Some(b) => AddPlace(false, b, Places(toInt, useMatch, parts[1..], places - 1))
  }

  function AddPlace(wild: bool, b: bv8, rest: Option<Binary>): Option<Binary> {
    if rest.None? then None else Some(Binary([wild] + rest.value.wild, [b] + rest.value.bytes))
  }

  /** What an address or a pattern stands for; nothing when it is malformed. */
  function Parse(toInt: ToInt, s: string, useMatch: bool): (p: Option<Pattern>)
    ensures p.Some? && !useMatch ==> forall i :: 0 <= i < 4 ==> !p.value.wild[i]
  {
    Places(toInt, useMatch, Parts(s, 0, 4), 4)
  }

  /** Places found so far, before those that the rest of the text gives. */
  function Joined(wild: seq<bool>, bytes: seq<bv8>, rest: Option<Binary>): Option<Binary> {
    if rest.None? then None else Some(Binary(wild + rest.value.wild, bytes + rest.value.bytes))
  }

  lemma JoinOne(wild: seq<bool>, bytes: seq<bv8>, w: bool, b: bv8, rest: Option<Binary>)
    ensures Joined(wild, bytes, AddPlace(w, b, rest)) == Joined(wild + [w], bytes + [b], rest)
  {
    if rest.Some? {
      assert wild + ([w] + rest.value.wild) == wild + [w] + rest.value.wild;
      assert bytes + ([b] + rest.value.bytes) == bytes + [b] + rest.value.bytes;
    }
  }

  /** The next place, by the text to the next dot, when n places are left. */
  lemma NextPlace(toInt: ToInt, useMatch: bool, s: string, start: nat, n: nat)
    requires start <= |s| && n > 0
    ensures var (dot, all) := (IndexOfDot(s, start), Places(toInt, useMatch, Parts(s, start, n), n));
      var part := s[start..if dot.None? then |s| else dot.value];
      var octet := Octet(toInt, part);
      var next := if dot.Some? then dot.value + 1 else start;
      var rest := Places(toInt, useMatch, Parts(s, next, n - 1), n - 1);
      if useMatch && Star(part) then
        all == if dot.None? then Some(Binary(seq(n, _ => true), seq(n, _ => 0xFF))) else AddPlace(true, 0xFF, rest)
      else if (dot.None? && n > 1) || octet.None? then all == None
      else all == AddPlace(false, octet.value, rest)
  {
    hide Parts, IndexOfDot, Octet;
    NextPart(s, start, n);
    if n == 1 {
      var (trues, bytes) := (seq(1, _ => true), seq(1, _ => 0xFF as bv8));
      assert trues == [true] + [] && bytes == [0xFF as bv8] + [];
    }
  }

  lemma NextPart(s: string, start: nat, n: nat)
    requires start <= |s| && n > 0
    ensures var (dot, parts) := (IndexOfDot(s, start), Parts(s, start, n));
      && parts != [] && parts[0] == s[start..if dot.None? then |s| else dot.value]
      && (|parts| == 1 <==> dot.None? || n == 1)
      && (dot.Some? ==> parts[1..] == Parts(s, dot.value + 1, n - 1))
      && (n == 1 ==> forall k :: 0 <= k <= |s| ==> Parts(s, k, 0) == [])
  {
  }

  lemma NoPlaces(toInt: ToInt, useMatch: bool, s: string, start: nat)
    requires start <= |s|
    ensures Places(toInt, useMatch, Parts(s, start, 0), 0) == Some(Binary([], []))
  {
  }

  /** strToBin: place by place, to the next dot. */
  method StrToBin(toInt: ToInt, s: string, useMatch: bool) returns (b: Option<Pattern>)
    ensures b == Parse(toInt, s, useMatch)
  {
    hide Places, Parts;
    var wild: seq<bool> := [];
    var bytes: seq<bv8> := [];
    var start: nat := 0;
    ghost var all := Parse(toInt, s, useMatch);
    assert all.Some? ==> [] + all.value.wild == all.value.wild && [] + all.value.bytes == all.value.bytes;
    assert all == Joined(wild, bytes, all);
    for i := 0 to 4
      invariant start <= |s| && |wild| == |bytes| == i
      invariant all == Joined(wild, bytes, Places(toInt, useMatch, Parts(s, start, 4 - i), 4 - i))
    {
      NextPlace(toInt, useMatch, s, start, 4 - i);
      var position := IndexOfDot(s, start);
      var part := s[start..if position.None? then |s| else position.value];
      var star := useMatch && Star(part);
      if position.None? {
        if star {
          return Some(Binary(wild + seq(4 - i, _ => true), bytes + seq(4 - i, _ => 0xFF)));
        } else if i != 3 {
          return None;
        }
      }
      ghost var next := if position.Some? then position.value + 1 else start;
      ghost var rest := Places(toInt, useMatch, Parts(s, next, 3 - i), 3 - i);
      if star {
        JoinOne(wild, bytes, true, 0xFF, rest);
        wild, bytes := wild + [true], bytes + [0xFF];
      } else {
        var octet := Octet(toInt, part);
        if octet.None? {
          return None;
        }
        JoinOne(wild, bytes, false, octet.value, rest);
        wild, bytes := wild + [false], bytes + [octet.value];
      }
      if position.Some? {
        start := position.value + 1;
      }
    }
    NoPlaces(toInt, useMatch, s, start);
    assert wild + [] == wild && bytes + [] == bytes;
    b := Some(Binary(wild, bytes));
  }

  // ---------- what parses ----------

  /** The parts joined by dots. */
  function Dotted(parts: seq<string>): string
    requires parts != []
  {
    if |parts| == 1 then parts[0] else parts[0] + "." + Dotted(parts[1..])
  }

  ghost predicate DotFree(parts: seq<string>) {
    forall i :: 0 <= i < |parts| ==> '.' !in parts[i]
  }

  predicate Wild(useMatch: bool, part: string) {
    useMatch && |part| > 0 && part[0] == '*'
  }

  /** The part is a number that a byte can hold. */
  predicate IsOctet(toInt: ToInt, part: string) {
    toInt(part).Some? && 0 <= toInt(part).value <= 255
  }

  lemma DotAt(s: string, start: nat, part: string, after: string)
    requires start <= |s| && s[start..] == part + after && '.' !in part
    requires after == "" || after[0] == '.'
    ensures IndexOfDot(s, start) == if after == "" then None else Some(start + |part|)
  {
    assert forall j :: start <= j < |s| ==> s[j] == (part + after)[j - start];
    if after != "" {
      assert s[start + |part|] == '.';
      assert s[start + |part|] in s[start..];
    }
  }

  /** Cutting a text at its first dot. */
  lemma FirstPart(s: string, start: nat, part: string, others: string)
    requires start <= |s| && s[start..] == part + "." + others && '.' !in part
    ensures IndexOfDot(s, start) == Some(start + |part|) && start + |part| < |s|
    ensures s[start..start + |part|] == part && s[start + |part| + 1..] == others
  {
    DotAt(s, start, part, "." + others);
    assert s[start..] == part + ("." + others);
    assert s[start..start + |part|] == s[start..][..|part|];
    assert s[start + |part| + 1..] == s[start..][|part| + 1..];
  }

  lemma LastPart(s: string, start: nat, part: string, rest: string, count: nat)
    requires count > 0 && start <= |s| && s[start..] == part + rest && '.' !in part
    requires rest == "" || (rest[0] == '.' && count == 1)
    ensures Parts(s, start, count) == [part]
  {
    hide IndexOfDot;
    DotAt(s, start, part, rest);
    if rest == "" {
      assert s[start..] == part;
    } else {
      assert s[start..start + |part|] == s[start..][..|part|] == part;
      assert Parts(s, start + |part| + 1, 0) == [];
    }
  }

  /** The parts between the dots are found again, whatever follows after the last one wanted. */
  lemma {:induction false} PartsOfDotted(s: string, start: nat, parts: seq<string>, rest: string, count: nat)
    requires 1 <= |parts| <= count && DotFree(parts) && start <= |s| && s[start..] == Dotted(parts) + rest
    requires rest == "" || (rest[0] == '.' && |parts| == count)
    ensures Parts(s, start, count) == parts
    decreases count
  {
    hide IndexOfDot, DotFree, Parts;
    var part := parts[0];
    assert '.' !in part && DotFree(parts[1..]) by { NoDots(parts); }
    if |parts| == 1 {
      LastPart(s, start, part, rest, count);
    } else {
      var others := Dotted(parts[1..]) + rest;
      assert s[start..] == part + "." + others;
      FirstPart(s, start, part, others);
      PartsOfDotted(s, start + |part| + 1, parts[1..], rest, count - 1);
      NextPart(s, start, count);
      assert parts == [part] + parts[1..];
      assert Parts(s, start, count) == [part] + Parts(s, start, count)[1..];
    }
  }

  lemma NoDots(parts: seq<string>)
    requires parts != [] && DotFree(parts)
    ensures '.' !in parts[0] && DotFree(parts[1..])
  {
  }

  lemma FirstPlace(toInt: ToInt, useMatch: bool, parts: seq<string>, places: nat)
    requires 1 <= |parts| <= places
    ensures var (all, octet) := (Places(toInt, useMatch, parts, places), Octet(toInt, parts[0]));
      var rest := Places(toInt, useMatch, parts[1..], places - 1);
      if Wild(useMatch, parts[0]) then
        all == if |parts| == 1 then Some(Binary(seq(places, _ => true), seq(places, _ => 0xFF)))
               else AddPlace(true, 0xFF, rest)
      else if (|parts| == 1 && places > 1) || octet.None? then all == None
      else all == AddPlace(false, octet.value, rest) && (places == 1 ==> rest == Some(Binary([], [])))
  {
    hide Octet;
  }

  /** Which parts make places: each a wildcard or a number that fits a byte, and a last wildcard if there are too
      few. */
  lemma {:induction false} WhatPlacesAre(toInt: ToInt, useMatch: bool, parts: seq<string>, places: nat)
    requires 1 <= |parts| <= places
    ensures var b := Places(toInt, useMatch, parts, places);
      && (b.Some? <==>
        && (forall i :: 0 <= i < |parts| ==> Wild(useMatch, parts[i]) || Octet(toInt, parts[i]).Some?)
        && (|parts| < places ==> Wild(useMatch, parts[|parts| - 1])))
      && (b.Some? ==> forall i :: 0 <= i < places ==>
        if i < |parts| && !Wild(useMatch, parts[i])
        then !b.value.wild[i] && Octet(toInt, parts[i]) == Some(b.value.bytes[i])
        else b.value.wild[i] && b.value.bytes[i] == 0xFF)
    decreases |parts|
  {
    hide Octet, Wild, Star, Places;
    var rest := Places(toInt, useMatch, parts[1..], places - 1);
    FirstPlace(toInt, useMatch, parts, places);
    if |parts| > 1 {
      WhatPlacesAre(toInt, useMatch, parts[1..], places - 1);
    }
  }

  ghost predicate OctetIsNumber(toInt: ToInt, part: string) {
    && (Octet(toInt, part).Some? <==> IsOctet(toInt, part))
    && (IsOctet(toInt, part) ==> Octet(toInt, part).value == toInt(part).value as bv8)
  }

  lemma TheNumber(toInt: ToInt, part: string)
    ensures OctetIsNumber(toInt, part)
  {
  }

  /** What parses: up to four dot-free parts joined by dots parse iff each is a number from 0 to 255 or, in a
      pattern, begins with a star, and fewer than four only in a pattern whose last part does; the result has
      these very numbers, and wildcards at the stars and at every place there is no part for. Anything may follow
      after a fourth dot. */
  lemma {:induction false} WhatParses(toInt: ToInt, useMatch: bool, parts: seq<string>, rest: string)
    requires 1 <= |parts| <= 4 && DotFree(parts)
    requires rest == "" || (rest[0] == '.' && |parts| == 4)
    ensures var p := Parse(toInt, Dotted(parts) + rest, useMatch);
      && (p.Some? <==>
        && (forall i :: 0 <= i < |parts| ==> Wild(useMatch, parts[i]) || IsOctet(toInt, parts[i]))
        && (|parts| < 4 ==> Wild(useMatch, parts[|parts| - 1])))
      && (p.Some? ==> forall i :: 0 <= i < 4 ==>
        if i < |parts| && !Wild(useMatch, parts[i])
        then !p.value.wild[i] && IsOctet(toInt, parts[i]) && p.value.bytes[i] == toInt(parts[i]).value as bv8
        else p.value.wild[i] && p.value.bytes[i] == 0xFF)
  {
    hide Places, Parts, Octet, Star, Wild;
    forall i | 0 <= i < |parts| ensures OctetIsNumber(toInt, parts[i]) {
      TheNumber(toInt, parts[i]);
    }
    var s := Dotted(parts) + rest;
    assert s[0..] == s;
    PartsOfDotted(s, 0, parts, rest, 4);
    WhatPlacesAre(toInt, useMatch, parts, 4);
  }

  /** Every text is of that form. */
  lemma {:induction false} EveryTextIsDotted(s: string, count: nat) returns (parts: seq<string>, rest: string)
    requires count > 0
    ensures 1 <= |parts| <= count && DotFree(parts) && s == Dotted(parts) + rest
    ensures rest == "" || (rest[0] == '.' && |parts| == count)
    decreases count
  {
    var dot := IndexOfDot(s, 0);
    assert s[0..] == s;
    if dot.None? {
      parts, rest := [s], "";
    } else if count == 1 {
      parts, rest := [s[..dot.value]], s[dot.value..];
      assert s[0..dot.value] == s[..dot.value];
    } else {
      var others;
      others, rest := EveryTextIsDotted(s[dot.value + 1..], count - 1);
      assert s[0..dot.value] == s[..dot.value];
      parts := [s[..dot.value]] + others;
      assert parts[1..] == others;
      assert s == s[..dot.value] + "." + s[dot.value + 1..];
    }
  }

  // ---------- the lists ----------

  /** What a line of the mask says. */
  datatype Line = Prohibited(pattern: Pattern) | Allowed(pattern: Pattern) | Malformed

  function CountParts(s: string, inPart: bool): nat {
    if s == "" then if inPart then 1 else 0
    else if s[0] == '.' then (if inPart then 1 else 0) + CountParts(s[1..], false)
    else CountParts(s[1..], true)
  }

  function ReadLine(toInt: ToInt, line: string): Line {
    if CountParts(line, false) > 4 then Malformed
    else if line != "" && line[0] == '!' then
      match Parse(toInt, line[1..], true)
      case None => Malformed
      case Some(p) => Prohibited(p)
    else
      match Parse(toInt, line, true)
      case None => Malformed
      case Some(p) => Allowed(p)
  }

  /** The patterns of the two kinds, in the order of the lines. */
  function Patterns(toInt: ToInt, lines: seq<string>, prohibited: bool): seq<Pattern> {
    if lines == [] then []
    else
      var rest := Patterns(toInt, lines[..|lines| - 1], prohibited);
      match ReadLine(toInt, lines[|lines| - 1])
      case Prohibited(p) => if prohibited then rest + [p] else rest
      case Allowed(p) => if prohibited then rest else rest + [p]
      case Malformed => rest
  }

  ghost predicate AllWellFormed(toInt: ToInt, lines: seq<string>) {
    forall line <- lines :: !ReadLine(toInt, line).Malformed?
  }

  // ---------- checking ----------

  /** Whether some pattern of a list matches. */
  ghost predicate AnyMatches(list: seq<Pattern>, a: Address) {
    exists p <- list :: Matches(p, a)
  }

  lemma MatchingIsCovered(p: Pattern, a: Address)
    ensures Matches(p, a) ==> Within(a[0], p.bytes[0]) && Within(a[1], p.bytes[1])
                              && Within(a[2], p.bytes[2]) && Within(a[3], p.bytes[3])
  {
    hide Within;
    if Matches(p, a) {
      forall i | 0 <= i < 4 ensures Within(a[i], p.bytes[i]) {
        MatchingIsWithin(a[i], p.bytes[i]);
      }
    }
  }

  class IpMask {
    var prohibitedMask: seq<Pattern>
    var allowedMask: seq<Pattern>
    var maskParsed: bool

    /** The constructor parses the lines of the mask, already split at the delimiter. */
    constructor (toInt: ToInt, lines: seq<string>)
      ensures maskParsed <==>
        AllWellFormed(toInt, lines) && forall p <- Patterns(toInt, lines, true) :: !Everything(p)
      ensures maskParsed ==>
        && prohibitedMask == Patterns(toInt, lines, true)
        && var allowed := Patterns(toInt, lines, false); allowedMask == if allowed == [] then [LOOPBACK] else allowed
    {
      hide Patterns, AllWellFormed, ReadLine;
      prohibitedMask, allowedMask, maskParsed := [], [], false;
      new;
      var ok := ReadLines(toInt, lines);
      if ok {
        if |allowedMask| == 0 {
          allowedMask := allowedMask + [LOOPBACK];
        }
        var everything := ProhibitsEverything();
        maskParsed := !everything;
      }
    }

    method ReadLines(toInt: ToInt, lines: seq<string>) returns (ok: bool)
      requires prohibitedMask == allowedMask == []
      modifies this`prohibitedMask, this`allowedMask
      ensures ok == AllWellFormed(toInt, lines)
      ensures ok ==> prohibitedMask == Patterns(toInt, lines, true) && allowedMask == Patterns(toInt, lines, false)
    {
      hide ReadLine;
      for n := 0 to |lines|
        invariant prohibitedMask == Patterns(toInt, lines[..n], true)
        invariant allowedMask == Patterns(toInt, lines[..n], false)
        invariant AllWellFormed(toInt, lines[..n])
      {
        assert lines[..n + 1][..n] == lines[..n];
        match ReadLine(toInt, lines[n]) {
          case Prohibited(p) => prohibitedMask := prohibitedMask + [p];
          case Allowed(p) => allowedMask := allowedMask + [p];
          case Malformed => return false;
        }
      }
      assert lines[..|lines|] == lines;
      ok := true;
    }

    /** contains: the comparison looks at the wildcard flags only. */
    method ProhibitsEverything() returns (everything: bool)
      ensures everything <==> exists p <- prohibitedMask :: Everything(p)
    {
      everything := false;
      for n := 0 to |prohibitedMask|
        invariant forall k :: 0 <= k < n ==> !Everything(prohibitedMask[k])
      {
        if Everything(prohibitedMask[n]) {
          return true;
        }
      }
    }

    /** The two tests of the source on one pattern: together they are matching place by place. */
    method MatchesPattern(p: Pattern, a: Address) returns (matches: bool)
      ensures matches == Matches(p, a)
    {
      hide Within;
      var m := p.bytes;
      var within := WordWithin(a[0], a[1], a[2], a[3], m[0], m[1], m[2], m[3]);
      if !within {
        MatchingIsCovered(p, a);
        return false;
      }
      for i := 0 to 4
        invariant forall k :: 0 <= k < i ==> p.wild[k] || m[k] == a[k]
      {
        var notMatch := Differs(a[i], m[i]);
        if notMatch && !p.wild[i] {
          return false;
        }
      }
      matches := true;
    }

    method MatchesAny(list: seq<Pattern>, a: Address) returns (any: bool)
      ensures any == AnyMatches(list, a)
    {
      any := false;
      for n := 0 to |list|
        invariant forall k :: 0 <= k < n ==> !Matches(list[k], a)
      {
        var matches := MatchesPattern(list[n], a);
        if matches {
          return true;
        }
      }
    }

    /** An address is accepted iff the mask was parsed, the address is well formed, no prohibited pattern matches
        it and an allowed one does. */
    method CheckIpAddress(toInt: ToInt, address: string) returns (result: bool)
      ensures result <==>
        var parsed := Parse(toInt, address, false);
        && maskParsed && parsed.Some?
        && !AnyMatches(prohibitedMask, parsed.value.bytes) && AnyMatches(allowedMask, parsed.value.bytes)
    {
      hide AnyMatches, Parse;
      if !maskParsed {
        return false;
      }
      var parsed := StrToBin(toInt, address, false);
      if parsed.None? {
        return false;
      }
      var prohibited := MatchesAny(prohibitedMask, parsed.value.bytes);
      if prohibited {
        return false;
      }
      result := MatchesAny(allowedMask, parsed.value.bytes);
    }
  }
}
