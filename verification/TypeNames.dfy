/** The names given to inferred EIP-712 types (ethereum/eip712/types.go). */
module TypeNames {
  import opened Decimal

  /** strings.Split(s, sep) for a one-character separator */
  function Split(s: string, sep: char): (parts: seq<string>)
    ensures |parts| >= 1
  {
    if s == "" then [""]
    else
      var rest := Split(s[1..], sep);
      if s[0] == sep then [""] + rest else [[s[0]] + rest[0]] + rest[1..]
  }

  /** Title case of a word of letters and digits: its first letter is raised, the rest is kept. */
  function Title(s: string): string {
    if s == "" then ""
    else if 'a' <= s[0] <= 'z' then [(s[0] as int - 32) as char] + s[1..]
    else if 'A' <= s[0] <= 'Z' then s
    else [s[0]] + Title(s[1..])
  }

  function TitleAll(parts: seq<string>): string {
    if parts == [] then "" else Title(parts[0]) + TitleAll(parts[1..])
  }

  function SanitizePart(part: string): string {
    if part == "_" then "Type" else TitleAll(Split(part, '_'))
  }

  function SanitizeAll(parts: seq<string>): string {
    if parts == [] then "" else SanitizePart(parts[0]) + SanitizeAll(parts[1..])
  }

  function Sanitized(s: string): string { SanitizeAll(Split(s, '.')) }

  method WriteTitles(part: string) returns (buf: string)
    ensures buf == TitleAll(Split(part, '_'))
  {
    var subparts := Split(part, '_');
    buf := "";
    for i := 0 to |subparts|
      invariant buf + TitleAll(subparts[i..]) == TitleAll(subparts)
    {
      hide Title, Split;
      TitleStep(subparts, i, buf);
      buf := buf + Title(subparts[i]);
    }
    assert subparts[|subparts|..] == [];
  }

  lemma TitleStep(parts: seq<string>, i: nat, buf: string)
    requires i < |parts|
    ensures buf + Title(parts[i]) + TitleAll(parts[i + 1..]) == buf + TitleAll(parts[i..])
  {
    hide Title;
    assert parts[i..][1..] == parts[i + 1..];
    assert buf + Title(parts[i]) + TitleAll(parts[i + 1..]) == buf + (Title(parts[i]) + TitleAll(parts[i + 1..]));
  }

  lemma SanitizeStep(parts: seq<string>, i: nat, buf: string)
    requires i < |parts|
    ensures buf + SanitizePart(parts[i]) + SanitizeAll(parts[i + 1..]) == buf + SanitizeAll(parts[i..])
  {
    hide SanitizePart;
    assert parts[i..][1..] == parts[i + 1..];
    assert buf + SanitizePart(parts[i]) + SanitizeAll(parts[i + 1..]) == buf + (SanitizePart(parts[i]) + SanitizeAll(parts[i + 1..]));
  }

  /** sanitizeTypedef */
  method SanitizeTypedef(s: string) returns (buf: string)
    ensures buf == Sanitized(s) && buf == Camel(s, Part)
  {
    var parts := Split(s, '.');
    buf := "";
    for i := 0 to |parts|
      invariant buf + SanitizeAll(parts[i..]) == SanitizeAll(parts)
    {
      hide Title, TitleAll, Split;
      SanitizeStep(parts, i, buf);
      if parts[i] == "_" {
        buf := buf + "Type";
      } else {
        var titles := WriteTitles(parts[i]);
        buf := buf + titles;
      }
    }
    assert parts[|parts|..] == [];
    SanitizedIsCamel(s);
  }

  // ---- Sanitized names in one pass -------------------------------------------------------------------

  /** At the start of a part, at the start of a word in it, or behind the first letter of the word. */
  datatype At = Part | Word | Inside

  predicate IsLower(c: char) { 'a' <= c <= 'z' }

  predicate IsLetter(c: char) { IsLower(c) || 'A' <= c <= 'Z' }

  /** Dots and underscores end parts and words and are left out; the first letter of every word is raised; a
      part that is a lone underscore is spelled "Type". */
  function Camel(s: string, at: At): string {
    if s == "" then ""
    else if s[0] == '.' then Camel(s[1..], Part)
    else if s[0] == '_' then (if at.Part? && (s == "_" || s[1] == '.') then "Type" else "") + Camel(s[1..], Word)
    else if IsLower(s[0]) && !at.Inside? then ['A' + (s[0] - 'a')] + Camel(s[1..], Inside)
    else [s[0]] + Camel(s[1..], if at.Inside? || IsLetter(s[0]) then Inside else Word)
  }

  predicate Without(s: string, c: char) { c !in s }

  /** The first part, and the string behind it. */
  lemma {:induction false} SplitHead(s: string, sep: char) returns (rest: string)
    ensures Without(Split(s, sep)[0], sep)
    ensures |Split(s, sep)| == 1 ==> s == Split(s, sep)[0]
    ensures |Split(s, sep)| > 1 ==> s == Split(s, sep)[0] + [sep] + rest && Split(s, sep)[1..] == Split(rest, sep)
  {
    rest := "";
    if s != "" {
      if s[0] == sep {
        rest := s[1..];
        assert s == "" + [sep] + rest;
      } else {
        SplitStep(s, sep);
        hide Split;
        rest := SplitHead(s[1..], sep);
        HeadStep(s, Split(s[1..], sep), sep, rest);
      }
    }
  }

  lemma HeadStep(s: string, parts: seq<string>, sep: char, rest: string)
    requires s != "" && parts != [] && s[0] != sep && Without(parts[0], sep)
    requires s[1..] == if |parts| == 1 then parts[0] else parts[0] + [sep] + rest
    ensures Without([s[0]] + parts[0], sep) && s == if |parts| == 1 then [s[0]] + parts[0] else ([s[0]] + parts[0]) + [sep] + rest
  {
    assert s == [s[0]] + s[1..];
    if |parts| > 1 {
      Regroup([s[0]], parts[0], [sep]);
      Regroup([s[0]], parts[0] + [sep], rest);
    }
  }

  /** What the words of a part become, seen from its start or from inside the first word. */
  function Titled(part: string, at: At): string {
    var words := Split(part, '_');
    (if at.Inside? then words[0] else Title(words[0])) + TitleAll(words[1..])
  }

  /** Where the pass stands behind a character of a part, and what the character becomes. */
  function Next(c: char, at: At): At { if c != '_' && (at.Inside? || IsLetter(c)) then Inside else Word }

  function Becomes(c: char, at: At): string {
    if c == '_' then "" else if IsLower(c) && !at.Inside? then ['A' + (c - 'a')] else [c]
  }

  lemma CamelStep(s: string, at: At)
    requires s != "" && s[0] != '.' && !at.Part?
    ensures Camel(s, at) == Becomes(s[0], at) + Camel(s[1..], Next(s[0], at))
  {
  }

  lemma TitleStepIs(c: char, word: string, at: At)
    requires !at.Part? && c != '_'
    ensures (if at.Inside? then [c] + word else Title([c] + word)) == Becomes(c, at) + if Next(c, at).Inside? then word else Title(word)
  {
    assert ([c] + word)[1..] == word;
  }

  lemma Regroup(a: string, b: string, c: string)
    ensures (a + b) + c == a + (b + c)
  {
  }

  lemma TitledStep(part: string, at: At)
    requires part != "" && !at.Part?
    ensures Titled(part, at) == Becomes(part[0], at) + Titled(part[1..], Next(part[0], at))
  {
    if part[0] == '_' {
      assert Split(part, '_')[1..] == Split(part[1..], '_');
      hide Split;
      WordsFollow(Split(part[1..], '_'));
    } else {
      SplitStep(part, '_');
      hide Split, TitleAll, Title, Becomes, Next;
      var more := Split(part[1..], '_');
      var next := Next(part[0], at);
      TitleStepIs(part[0], more[0], at);
      Regroup(Becomes(part[0], at), if next.Inside? then more[0] else Title(more[0]), TitleAll(more[1..]));
    }
  }

  lemma SplitStep(s: string, sep: char)
    requires s != "" && s[0] != sep
    ensures var parts, more := Split(s, sep), Split(s[1..], sep); parts[0] == [s[0]] + more[0] && parts[1..] == more[1..] && |parts| == |more|
  {
  }

  lemma EmptyPart(at: At, tail: string)
    requires !at.Part? && (tail == "" || tail[0] == '.')
    ensures Titled("", at) == "" && Camel(tail, at) == Camel(tail, Inside)
  {
  }

  lemma {:induction false} PartInOnePass(part: string, at: At, tail: string)
    requires Without(part, '.') && !at.Part? && (tail == "" || tail[0] == '.')
    ensures Camel(part + tail, at) == Titled(part, at) + Camel(tail, Inside)
  {
    hide Titled, Camel, Becomes;
    if part == "" {
      assert part + tail == tail;
      EmptyPart(at, tail);
    } else {
      var s, next := part + tail, Next(part[0], at);
      assert part[0] in part && s[0] == part[0] && s[1..] == part[1..] + tail;
      CamelStep(s, at);
      TitledStep(part, at);
      PartInOnePass(part[1..], next, tail);
      Regroup(Becomes(part[0], at), Titled(part[1..], next), Camel(tail, Inside));
    }
  }

  lemma WordsFollow(words: seq<string>)
    requires words != []
    ensures TitleAll(words) == Title(words[0]) + TitleAll(words[1..])
  {
  }

  lemma PartStarts(part: string, tail: string)
    requires Without(part, '.') && (tail == "" || tail[0] == '.')
    ensures Camel(part + tail, Part) == SanitizePart(part) + Camel(tail, Inside)
  {
    hide Title, Split;
    var s := part + tail;
    if part == "_" {
      assert s[1..] == tail && (s == "_" || s[1] == '.');
      assert Camel(tail, Word) == Camel(tail, Inside);
    } else {
      PartInOnePass(part, Word, tail);
      WordsFollow(Split(part, '_'));
      if part != "" { assert s[0] == part[0]; } else { assert s == tail; }
      assert Camel(s, Part) == Camel(s, Word) by {
        if |part| >= 2 { assert s[1] == part[1]; }
      }
    }
  }

  /** Splitting into parts and words, raising and joining is the same as one pass. */
  lemma {:induction false} SanitizedIsCamel(s: string)
    ensures Sanitized(s) == Camel(s, Part)
    decreases |s|
  {
    hide Title, SanitizePart, Split;
    var parts := Split(s, '.');
    var rest := SplitHead(s, '.');
    if |parts| == 1 {
      PartStarts(s, "");
      assert s + "" == s && parts[1..] == [];
      assert SanitizeAll(parts) == SanitizePart(s) + "";
    } else {
      var tail := ['.'] + rest;
      assert s == parts[0] + tail;
      PartStarts(parts[0], tail);
      assert tail[1..] == rest;
      SanitizedIsCamel(rest);
    }
  }

  // ---- Names below the root --------------------------------------------------------------------------

  lemma {:induction false} CamelPlain(s: string, at: At)
    ensures Without(Camel(s, at), '.') && Without(Camel(s, at), '_')
  {
    if s != "" {
      CamelPlain(s[1..], Part);
      CamelPlain(s[1..], Word);
      CamelPlain(s[1..], Inside);
    }
  }

  lemma {:induction false} CamelKeeps(s: string)
    requires Without(s, '.') && Without(s, '_')
    ensures Camel(s, Inside) == s
  {
    if s != "" {
      assert s[0] in s && forall c :: c in s[1..] ==> c in s;
      CamelKeeps(s[1..]);
      assert s == [s[0]] + s[1..];
    }
  }

  /** A prefix below the root. */
  predicate Below(prefix: string) { |prefix| >= 2 && prefix[..2] == "_." }

  predicate StartsWithType(s: string) { |s| >= 4 && s[..4] == "Type" }

  lemma SanitizedBelow(prefix: string)
    requires Below(prefix)
    ensures StartsWithType(Sanitized(prefix)) && Without(Sanitized(prefix), '.') && Without(Sanitized(prefix), '_')
  {
    SanitizedIsCamel(prefix);
    CamelPlain(prefix, Part);
    assert prefix[0] == prefix[..2][0] && prefix[1] == prefix[..2][1];
    assert Camel(prefix, Part) == "Type" + Camel(prefix[1..], Word);
  }

  /** The key of a type below the root keeps its name when it is sanitized again. */
  lemma KeyFixed(prefix: string, k: nat)
    requires Below(prefix)
    ensures Sanitized(Sanitized(prefix) + Print(k)) == Sanitized(prefix) + Print(k)
  {
    hide Print, Sanitized;
    SanitizedBelow(prefix);
    PlainFixed(Sanitized(prefix), Print(k));
  }

  lemma PlainFixed(base: string, digits: string)
    requires StartsWithType(base) && Without(base, '.') && Without(base, '_') && AllDigits(digits)
    ensures Sanitized(base + digits) == base + digits
  {
    hide Sanitized;
    var s := base + digits;
    SanitizedIsCamel(s);
    assert s[0] == base[..4][0] == 'T' && s == [s[0]] + s[1..];
    assert forall c :: c in s[1..] ==> c in base || c in digits;
    CamelKeeps(s[1..]);
  }

  // ---- Keys ------------------------------------------------------------------------------------------

  /** typeDefWithIndex */
  function WithIndex(typeDef: string, index: nat): string { typeDef + Print(index) }

  /** The form of every key that inference adds: "Type", then anything, then a digit. */
  predicate IsTypeKey(key: string) { |key| > 4 && StartsWithType(key) && IsDigit(key[|key| - 1]) }

  lemma WithIndexIsTypeKey(typeDef: string, index: nat)
    requires StartsWithType(typeDef)
    ensures IsTypeKey(WithIndex(typeDef, index))
  {
    hide Print;
    assert WithIndex(typeDef, index)[..4] == typeDef[..4];
  }

  /** msgRootType of a type URL: what follows its last slash, after "Type". */
  function RootType(msgType: string): string {
    var parts := Split(msgType, '/');
    "Type" + parts[|parts| - 1]
  }

  /** What follows the last slash of a type URL, or the whole of one without a slash. */
  predicate LastPart(url: string, name: string) {
    && |name| <= |url| && url[|url| - |name|..] == name && '/' !in name
    && (|name| < |url| ==> url[|url| - |name| - 1] == '/')
  }

  lemma {:induction false} SplitEnds(url: string)
    ensures var parts := Split(url, '/'); LastPart(url, parts[|parts| - 1])
    decreases |url|
  {
    hide Split;
    var parts := Split(url, '/');
    var rest := SplitHead(url, '/');
    if |parts| > 1 {
      SplitEnds(rest);
      var name := Split(rest, '/')[|parts| - 2];
      assert parts[|parts| - 1] == parts[1..][|parts| - 2] == name;
      assert url[|url| - |rest|..] == rest && url[|url| - |rest| - 1] == '/';
      assert url[|url| - |name|..] == rest[|rest| - |name|..];
    }
  }

  lemma SameLast(url: string, name: string, other: string)
    requires LastPart(url, name) && LastPart(url, other)
    ensures |name| <= |other|
  {
  }

  /** A URL has one last part, and the root type is made of it. */
  lemma RootTypeIs(url: string, name: string)
    requires LastPart(url, name)
    ensures RootType(url) == "Type" + name && StartsWithType(RootType(url))
  {
    hide Split;
    SplitEnds(url);
    var parts := Split(url, '/');
    var last := parts[|parts| - 1];
    SameLast(url, name, last);
    SameLast(url, last, name);
    assert RootType(url)[..4] == "Type";
  }

  lemma HasLastPart(url: string) returns (name: string)
    ensures LastPart(url, name)
  {
    SplitEnds(url);
    var parts := Split(url, '/');
    name := parts[|parts| - 1];
  }
}
