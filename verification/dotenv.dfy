// clif/credentials.py: rewriting one assignment of an .env file, and folding a bundle into it.
module DotEnv {
  import opened Hex

  // str.splitlines breaks a text at these; "\r\n" is one break.
  predicate IsBreak(c: char) {
    '\U{A}' <= c <= '\U{D}' || '\U{1C}' <= c <= '\U{1E}' || c == '\U{85}' || c == '\U{2028}' || c == '\U{2029}'
  }

  // What str.strip removes.
  predicate IsBlank(c: char) {
    || IsBreak(c) || c == '\U{9}' || c == '\U{1F}' || c == ' ' || c == '\U{A0}' || c == '\U{1680}'
    || '\U{2000}' <= c <= '\U{200A}' || c == '\U{202F}' || c == '\U{205F}' || c == '\U{3000}'
  }

  // By their codes: the ten breaks, and with them the twenty-nine blanks.
  lemma CharactersExactly(c: char)
    ensures IsBreak(c) <==> c as int in [0xA, 0xB, 0xC, 0xD, 0x1C, 0x1D, 0x1E, 0x85, 0x2028, 0x2029]
    ensures IsBlank(c) <==>
              c as int in [0x9, 0xA, 0xB, 0xC, 0xD, 0x1C, 0x1D, 0x1E, 0x1F, 0x20, 0x85, 0xA0, 0x1680, 0x2000, 0x2001,
                           0x2002, 0x2003, 0x2004, 0x2005, 0x2006, 0x2007, 0x2008, 0x2009, 0x200A, 0x2028, 0x2029,
                           0x202F, 0x205F, 0x3000]
  {}

  function StripLeft(s: string): string {
    if s != "" && IsBlank(s[0]) then StripLeft(s[1..]) else s
  }

  function StripRight(s: string): string {
    if s != "" && IsBlank(s[|s| - 1]) then StripRight(s[..|s| - 1]) else s
  }

  function Strip(s: string): string {
    StripRight(StripLeft(s))
  }

  predicate AllBlank(s: string) {
    forall i :: 0 <= i < |s| ==> IsBlank(s[i])
  }

  predicate Trim(s: string) {
    s != "" ==> !IsBlank(s[0]) && !IsBlank(s[|s| - 1])
  }

  // What is left of a text has no blank end, and only blanks went.
  lemma StripExactly(left: string, s: string, right: string)
    requires AllBlank(left) && Trim(s) && AllBlank(right)
    ensures Strip(left + s + right) == s
  {
    if s == "" {
      assert left + s + right == left + right + "";
      LeftGoes(left + right, "");
    } else {
      assert left + s + right == left + (s + right);
      LeftGoes(left, s + right);
      RightGoes(s, right);
    }
  }

  lemma {:induction false} LeftGoes(left: string, s: string)
    requires AllBlank(left) && (s != "" ==> !IsBlank(s[0]))
    ensures StripLeft(left + s) == s
  {
    if left == "" {
      assert left + s == s;
    } else {
      assert (left + s)[1..] == left[1..] + s;
      LeftGoes(left[1..], s);
    }
  }

  lemma {:induction false} RightGoes(s: string, right: string)
    requires AllBlank(right) && (s != "" ==> !IsBlank(s[|s| - 1]))
    ensures StripRight(s + right) == s
  {
    if right == "" {
      assert s + right == s;
    } else {
      assert (s + right)[..|s + right| - 1] == s + right[..|right| - 1];
      RightGoes(s, right[..|right| - 1]);
    }
  }

  // Every text is such a one.
  lemma Stripped(text: string) returns (left: string, s: string, right: string)
    ensures text == left + s + right && AllBlank(left) && Trim(s) && AllBlank(right) && Strip(text) == s
  {
    var i := 0;
    while i < |text| && IsBlank(text[i])
      invariant i <= |text| && AllBlank(text[..i])
    {
      i := i + 1;
    }
    var j := |text|;
    while j > i && IsBlank(text[j - 1])
      invariant i <= j <= |text| && AllBlank(text[j..])
    {
      j := j - 1;
    }
    left, s, right := text[..i], text[i..j], text[j..];
    assert text == left + s + right;
    StripExactly(left, s, right);
  }

  // --- Lines -------------------------------------------------------------------------------------------------

  predicate Unbroken(s: string) {
    forall i :: 0 <= i < |s| ==> !IsBreak(s[i])
  }

  function FirstBreak(s: string): (i: nat)
    ensures i <= |s| && Unbroken(s[..i]) && (i < |s| ==> IsBreak(s[i]))
  {
    if s == "" || IsBreak(s[0]) then 0
    else
      assert forall i :: 1 <= i <= |s| ==> s[1..][..i - 1] == s[..i][1..];
      1 + FirstBreak(s[1..])
  }

  function SplitLines(s: string): (r: seq<string>)
    ensures forall i :: 0 <= i < |r| ==> Unbroken(r[i])
    decreases |s|
  {
    if s == "" then []
    else
      var i := FirstBreak(s);
      if i == |s| then [s]
      else
        var next := if s[i] == '\r' && i + 1 < |s| && s[i + 1] == '\n' then i + 2 else i + 1;
        [s[..i]] + SplitLines(s[next..])
  }

  // "\n".join(lines) + "\n" of at least one line.
  function Unlines(lines: seq<string>): string {
    if lines == [] then "" else lines[0] + "\n" + Unlines(lines[1..])
  }

  lemma {:induction false} FirstBreakOf(line: string, rest: string)
    requires Unbroken(line)
    ensures FirstBreak(line + "\n" + rest) == |line|
  {
    var s := line + "\n" + rest;
    if line != "" {
      assert s[1..] == line[1..] + "\n" + rest;
      FirstBreakOf(line[1..], rest);
    }
  }

  lemma SplitOne(line: string, rest: string)
    requires Unbroken(line)
    ensures SplitLines(line + "\n" + rest) == [line] + SplitLines(rest)
  {
    var s := line + "\n" + rest;
    FirstBreakOf(line, rest);
    assert s[..|line|] == line && s[|line| + 1..] == rest;
  }

  lemma BreakAt(line: string, c: char, rest: string)
    requires Unbroken(line) && IsBreak(c)
    ensures FirstBreak(line + [c] + rest) == |line|
  {
    var s := line + [c] + rest;
    var i := FirstBreak(s);
    assert s[|line|] == c && forall k :: 0 <= k < |line| ==> s[k] == line[k];
    assert forall k :: 0 <= k < i ==> s[..i][k] == s[k];
  }

  // A text without a break is one line,
  lemma NoSplit(line: string)
    requires Unbroken(line)
    ensures SplitLines(line) == if line == "" then [] else [line]
  {}

  // and any other is cut at every break, a carriage return going with the line feed behind it.
  lemma SplitExactly(line: string, c: char, rest: string)
    requires Unbroken(line) && IsBreak(c)
    ensures SplitLines(line + [c] + rest) ==
            [line] + SplitLines(if c == '\U{D}' && "\U{A}" <= rest then rest[1..] else rest)
  {
    hide IsBreak, Unbroken, FirstBreak;
    BreakAt(line, c, rest);
    var s := line + [c] + rest;
    assert s != "" && s[|line|] == c && s[..|line|] == line && s[|line| + 1..] == rest;
    if rest != "" { assert s[|line| + 1] == rest[0] && s[|line| + 2..] == rest[1..]; }
  }

  // Every line is followed by a line feed.
  lemma UnlinesExactly(line: string, lines: seq<string>)
    ensures Unlines([]) == "" && Unlines([line] + lines) == line + ['\U{A}'] + Unlines(lines)
  {
    assert ([line] + lines)[1..] == lines;
  }

  // Writing unbroken lines and splitting again gives the lines back.
  lemma {:induction false} LinesRoundTrip(lines: seq<string>)
    requires forall i :: 0 <= i < |lines| ==> Unbroken(lines[i])
    ensures SplitLines(Unlines(lines)) == lines
  {
    if lines != [] {
      SplitOne(lines[0], Unlines(lines[1..]));
      LinesRoundTrip(lines[1..]);
    }
  }

  // --- Assignments -------------------------------------------------------------------------------------------

  function FirstEquals(s: string): nat {
    if s == "" || s[0] == '=' then 0 else 1 + FirstEquals(s[1..])
  }

  // The name a line assigns, if it is an assignment: NAME= or export NAME=.
  function AssignedName(line: string): Option<string> {
    var s := Strip(line);
    if s == "" || s[0] == '#' || '=' !in s then None
    else
      var key := Strip(Before(s));
      Some(if "export " <= key then Strip(key[7..]) else key)
  }

  function Before(s: string): (r: string)
    ensures |r| <= |s|
  {
    BeforeEquals(s); s[..FirstEquals(s)]
  }

  lemma {:induction false} BeforeEquals(s: string)
    ensures FirstEquals(s) <= |s|
  {
    if s != "" { BeforeEquals(s[1..]); }
  }

  predicate IsAssignment(line: string, name: string) {
    AssignedName(line) == Some(name)
  }

  // A name that can stand in front of "=": not empty, nothing blank in it, no "=", no comment sign in front.
  predicate IsName(name: string) {
    name != "" && name[0] != '#' && forall i :: 0 <= i < |name| ==> !IsBlank(name[i]) && name[i] != '='
  }

  // _is_clean.
  predicate IsClean(value: string) {
    value == Strip(value) && forall i :: 0 <= i < |value| ==> value[i] >= '\U{20}' && value[i] != '\U{7F}'
  }

  // Clean is what has no blank end and no control character.
  lemma CleanExactly(value: string)
    ensures IsClean(value) <==>
              Trim(value) && forall i :: 0 <= i < |value| ==> 32 <= value[i] as int && value[i] as int != 127
  {
    hide Strip;
    var left, s, right := Stripped(value);
    if Trim(value) {
      StripExactly("", value, "");
      assert "" + value + "" == value;
    }
  }

  function NewLine(name: string, value: string): string {
    name + "=" + value
  }

  lemma {:induction false} StripLeftStays(s: string)
    requires s == "" || !IsBlank(s[0])
    ensures StripLeft(s) == s
  {}

  lemma {:induction false} StripKeepsHead(s: string, n: nat)
    requires 0 < n <= |s| && !IsBlank(s[n - 1])
    ensures |StripRight(s)| >= n && StripRight(s)[..n] == s[..n]
  {
    if |s| > n && IsBlank(s[|s| - 1]) {
      StripKeepsHead(s[..|s| - 1], n);
      assert s[..|s| - 1][..n] == s[..n];
    }
  }

  lemma {:induction false} EqualsAt(name: string, rest: string)
    requires forall i :: 0 <= i < |name| ==> name[i] != '='
    ensures FirstEquals(name + "=" + rest) == |name|
  {
    var s := name + "=" + rest;
    if name != "" {
      assert s[1..] == name[1..] + "=" + rest;
      EqualsAt(name[1..], rest);
    }
  }

  lemma NameStripsToItself(name: string)
    requires IsName(name)
    ensures Strip(name) == name && !("export " <= name)
  {
    StripLeftStays(name);
    assert "export "[6] == ' ' && forall i :: 0 <= i < |name| ==> name[i] != ' ';
  }

  // The canonical line assigns its name, whatever the value, and the value is all that stands behind the first "=".
  lemma NewLineAssigns(name: string, value: string)
    requires IsName(name)
    ensures AssignedName(NewLine(name, value)) == Some(name)
    ensures var i := FirstEquals(NewLine(name, value));
            i < |NewLine(name, value)| && NewLine(name, value)[i + 1..] == value
  {
    var line := NewLine(name, value);
    EqualsAt(name, value);
    StripLeftStays(line);
    StripKeepsHead(line, |name| + 1);
    var s := Strip(line);
    assert s[..|name| + 1] == name + "=";
    assert s[|name|] == '=';
    assert s == name + "=" + s[|name| + 1..];
    EqualsAt(name, s[|name| + 1..]);
    assert s[..|name|] == name;
    NameStripsToItself(name);
  }

  lemma InFront(left: string, front: string, rest: string)
    requires AllBlank(left) && front != "" && !IsBlank(front[0]) && front[0] != '#'
    requires forall i :: 0 <= i < |front| ==> front[i] != '='
    ensures var kept := Strip(front);
            AssignedName(left + (front + "=" + rest)) == Some(if "export " <= kept then Strip(kept[7..]) else kept)
  {
    hide IsBlank;
    var s := front + "=" + rest;
    EqualsIsNotBlank("");
    LeftGoes(left, s);
    StripKeepsHead(s, |front| + 1);
    var t := Strip(left + s);
    var more := t[|front| + 1..];
    assert t == s[..|front| + 1] + more && s[..|front| + 1] == front + "=";
    hide Strip, StripRight, StripLeft;
    EqualsAt(front, more);
    assert t == front + "=" + more && t[..|front|] == front && t[|front|] == '=' && t[0] == front[0];
  }

  lemma AssignedInside(left: string, key: string, right: string, rest: string)
    requires AllBlank(left) && Trim(key) && key != "" && key[0] != '#' && AllBlank(right)
    requires forall i :: 0 <= i < |key| ==> key[i] != '='
    ensures AssignedName(left + (key + right + "=" + rest)) ==
            Some(if "export " <= key then Strip(key[7..]) else key)
  {
    hide IsBlank, AssignedName, Strip;
    EqualsIsNotBlank(right);
    InFront(left, key + right, rest);
    StripExactly("", key, right);
    assert "" + key + right == key + right;
  }

  lemma EqualsIsNotBlank(s: string)
    requires AllBlank(s)
    ensures !IsBlank('=') && forall i :: 0 <= i < |s| ==> s[i] != '='
  {}

  // A name is read in front of the first "=", among blanks, and behind "export" just as well.
  lemma AssignedExactly(left: string, name: string, right: string, gap: string, rest: string)
    requires AllBlank(left) && AllBlank(right) && AllBlank(gap) && IsName(name)
    ensures AssignedName(left + (name + right + "=" + rest)) == Some(name)
    ensures AssignedName(left + ("export " + gap + name + right + "=" + rest)) == Some(name)
  {
    hide AssignedName, Strip;
    NameStripsToItself(name);
    AssignedInside(left, name, right, rest);
    Exporting(gap, name);
    AssignedInside(left, "export " + gap + name, right, rest);
  }

  lemma Exporting(gap: string, name: string)
    requires AllBlank(gap) && IsName(name)
    ensures var key := "export " + gap + name;
            Trim(key) && key[0] != '#' && (forall i :: 0 <= i < |key| ==> key[i] != '=') && "export " <= key &&
            Strip(key[7..]) == name
  {
    EqualsIsNotBlank(gap);
    var key := "export " + gap + name;
    assert forall i :: 0 <= i < 7 ==> "export "[i] != '=';
    hide IsBlank;
    assert key[7..] == gap + name + "";
    assert key[0] == 'e' && key[|key| - 1] == name[|name| - 1];
    assert !IsBlank('e') by { PlainLetter(); }
    StripExactly(gap, name, "");
  }

  lemma PlainLetter()
    ensures !IsBlank('e')
  {}

  // A line assigns nothing exactly if it has no "=" or is a comment.
  lemma NothingAssignedExactly(line: string)
    ensures AssignedName(line).None? <==>
              '=' !in line || exists i :: 0 <= i < |line| && line[i] == '#' && AllBlank(line[..i])
  {
    var left, s, right := Stripped(line);
    hide IsBlank;
    EqualsIsNotBlank(left);
    EqualsIsNotBlank(right);
    assert '=' in line <==> '=' in s;
    if s != "" {
      FirstOf(left, s, right);
    } else {
      assert forall i :: 0 <= i < |line| ==> IsBlank(line[i]) && line[i] != '=';
    }
  }

  // The first character that is not blank.
  lemma FirstOf(left: string, s: string, right: string)
    requires AllBlank(left) && s != "" && !IsBlank(s[0])
    ensures var line := left + s + right;
            (exists i :: 0 <= i < |line| && line[i] == '#' && AllBlank(line[..i])) <==> s[0] == '#'
  {
    var line := left + s + right;
    assert line[|left|] == s[0] && line[..|left|] == left;
    assert forall i :: 0 <= i < |left| ==> line[i] == left[i];
    assert forall i :: |left| < i <= |line| ==> line[..i][|left|] == s[0];
  }

  // --- Collapsing a list -------------------------------------------------------------------------------------

  function Not<T(!new)>(p: T -> bool): T -> bool {
    x => !p(x)
  }

  function Filter<T(!new)>(s: seq<T>, p: T -> bool): seq<T> {
    if s == [] then []
    else if p(s[0]) then [s[0]] + Filter(s[1..], p)
    else Filter(s[1..], p)
  }

  // All elements with the property become one x, in the place of the first of them, or at the end.
  function Collapse<T(!new)>(s: seq<T>, p: T -> bool, x: T): seq<T> {
    if s == [] then [x]
    else if p(s[0]) then [x] + Filter(s[1..], Not(p))
    else [s[0]] + Collapse(s[1..], p, x)
  }

  // The new element stands where the first with the property stood, or at the end.
  lemma {:induction false} CollapseExactly<T(!new)>(before: seq<T>, y: T, after: seq<T>, p: T -> bool, x: T)
    requires forall i :: 0 <= i < |before| ==> !p(before[i])
    ensures Collapse(before, p, x) == before + [x]
    ensures p(y) ==> Collapse(before + [y] + after, p, x) == before + [x] + Filter(after, Not(p))
  {
    if before == [] {
      assert before + [y] + after == [y] + after && before + [x] == [x];
      CollapseCons(y, after, p, x);
    } else {
      var rest := before[1..];
      CollapseExactly(rest, y, after, p, x);
      hide Collapse, Filter;
      CollapseCons(before[0], rest, p, x);
      CollapseCons(before[0], rest + [y] + after, p, x);
      assert before == [before[0]] + rest;
      assert before + [y] + after == [before[0]] + (rest + [y] + after);
      assert before + [x] == [before[0]] + (rest + [x]);
      assert before + [x] + Filter(after, Not(p)) == [before[0]] + (rest + [x] + Filter(after, Not(p)));
    }
  }

  lemma FilterCons<T(!new)>(x: T, s: seq<T>, p: T -> bool)
    ensures Filter([x] + s, p) == if p(x) then [x] + Filter(s, p) else Filter(s, p)
  {
    assert ([x] + s)[1..] == s;
  }

  // Filtering for less after filtering for more.
  lemma {:induction false} FilterTwice<T(!new)>(s: seq<T>, p: T -> bool, q: T -> bool)
    requires forall x :: q(x) ==> p(x)
    ensures Filter(Filter(s, p), q) == Filter(s, q)
  {
    if s != [] {
      FilterTwice(s[1..], p, q);
      if p(s[0]) { FilterCons(s[0], Filter(s[1..], p), q); }
    }
  }

  lemma {:induction false} FilterNone<T(!new)>(s: seq<T>, p: T -> bool)
    ensures Filter(Filter(s, Not(p)), p) == []
  {
    if s != [] {
      FilterNone(s[1..], p);
      if !p(s[0]) { FilterCons(s[0], Filter(s[1..], Not(p)), p); }
    }
  }

  lemma {:induction false} CollapseOne<T(!new)>(s: seq<T>, p: T -> bool, x: T)
    requires p(x)
    ensures Filter(Collapse(s, p, x), p) == [x]
  {
    if s == [] {
      FilterCons(x, [], p);
      assert [x] + [] == [x];
    } else if p(s[0]) {
      FilterCons(x, Filter(s[1..], Not(p)), p);
      FilterNone(s[1..], p);
    } else {
      CollapseOne(s[1..], p, x);
      FilterCons(s[0], Collapse(s[1..], p, x), p);
    }
  }

  lemma {:induction false} CollapseKeeps<T(!new)>(s: seq<T>, p: T -> bool, x: T, q: T -> bool)
    requires p(x) && forall y :: q(y) ==> !p(y)
    ensures Filter(Collapse(s, p, x), q) == Filter(s, q)
  {
    if s == [] {
      FilterCons(x, [], q);
      assert [x] + [] == [x];
    } else if p(s[0]) {
      FilterCons(x, Filter(s[1..], Not(p)), q);
      FilterTwice(s[1..], Not(p), q);
    } else {
      CollapseKeeps(s[1..], p, x, q);
      FilterCons(s[0], Collapse(s[1..], p, x), q);
    }
  }

  lemma CollapseCons<T(!new)>(y: T, s: seq<T>, p: T -> bool, x: T)
    ensures Collapse([y] + s, p, x) == if p(y) then [x] + Filter(s, Not(p)) else [y] + Collapse(s, p, x)
  {
    assert ([y] + s)[1..] == s;
  }

  lemma {:induction false} CollapseTwice<T(!new)>(s: seq<T>, p: T -> bool, x: T)
    requires p(x)
    ensures Collapse(Collapse(s, p, x), p, x) == Collapse(s, p, x)
  {
    if s == [] {
      CollapseCons(x, [], p, x);
      assert [x] + [] == [x];
    } else if p(s[0]) {
      CollapseCons(x, Filter(s[1..], Not(p)), p, x);
      FilterTwice(s[1..], Not(p), Not(p));
    } else {
      CollapseTwice(s[1..], p, x);
      CollapseCons(s[0], Collapse(s[1..], p, x), p, x);
    }
  }

  lemma {:induction false} CollapseMembers<T(!new)>(s: seq<T>, p: T -> bool, x: T)
    ensures x in Collapse(s, p, x) && forall y :: y in Collapse(s, p, x) ==> y == x || y in s
  {
    if s != [] {
      CollapseMembers(s[1..], p, x);
      FilterMembers(s[1..], Not(p));
    }
  }

  lemma {:induction false} FilterMembers<T(!new)>(s: seq<T>, p: T -> bool)
    ensures forall y :: y in Filter(s, p) ==> y in s
  {
    if s != [] { FilterMembers(s[1..], p); }
  }

  // --- Upsert ------------------------------------------------------------------------------------------------

  function Assigns(name: string): string -> bool {
    line => IsAssignment(line, name)
  }

  // The lines with their assignments of the name collapsed into the new one.
  function Upserted(lines: seq<string>, name: string, newLine: string): seq<string> {
    Collapse(lines, Assigns(name), newLine)
  }

  // What the lines still to come contribute, once the new line is placed and before.
  function Rest<T(!new)>(placed: bool, s: seq<T>, p: T -> bool, x: T): seq<T> {
    if placed then Filter(s, Not(p)) else Collapse(s, p, x)
  }

  lemma RestStep<T(!new)>(placed: bool, s: seq<T>, i: nat, p: T -> bool, x: T)
    requires i < |s|
    ensures Rest(placed, s[i..], p, x) ==
            (if !p(s[i]) then [s[i]] else if placed then [] else [x]) + Rest(placed || p(s[i]), s[i + 1..], p, x)
  {
    assert s[i..][1..] == s[i + 1..];
  }

  lemma RestAtEnds<T(!new)>(s: seq<T>, p: T -> bool, x: T)
    ensures Rest(false, s, p, x) == Collapse(s, p, x) && Rest(true, [], p, x) == [] && Rest(false, [], p, x) == [x]
  {}

  method UpsertEnvVar(text: string, name: string, value: string) returns (r: string)
    ensures r == Unlines(Upserted(SplitLines(text), name, NewLine(name, value)))
  {
    hide Assigns, SplitLines, NewLine, Unlines, Rest, Collapse, Filter;
    var lines, newLine := SplitLines(text), NewLine(name, value);
    var p := Assigns(name);
    var out, placed := [], false;
    assert lines[0..] == lines;
    RestAtEnds(lines, p, newLine);
    for i := 0 to |lines|
      invariant Collapse(lines, p, newLine) == out + Rest(placed, lines[i..], p, newLine)
    {
      RestStep(placed, lines, i, p, newLine);
      if p(lines[i]) {
        if !placed { out, placed := out + [newLine], true; }
      } else {
        out := out + [lines[i]];
      }
    }
    assert lines[|lines|..] == [];
    if !placed { out := out + [newLine]; }
    assert out == Collapse(lines, p, newLine);
    r := Unlines(out);
  }

  // The new line is the only assignment of its name, every other line stays, and doing it again changes nothing.
  lemma UpsertIsCanonical(lines: seq<string>, name: string, newLine: string)
    requires IsAssignment(newLine, name)
    ensures var r := Upserted(lines, name, newLine);
            && Filter(r, Assigns(name)) == [newLine]
            && Filter(r, Not(Assigns(name))) == Filter(lines, Not(Assigns(name)))
            && Upserted(r, name, newLine) == r
  {
    CollapseOne(lines, Assigns(name), newLine);
    CollapseKeeps(lines, Assigns(name), newLine, Not(Assigns(name)));
    CollapseTwice(lines, Assigns(name), newLine);
  }

  // Other names keep their assignments, in order.
  lemma OtherNamesUntouched(lines: seq<string>, name: string, newLine: string, other: string)
    requires IsAssignment(newLine, name) && other != name
    ensures Filter(Upserted(lines, name, newLine), Assigns(other)) == Filter(lines, Assigns(other))
  {
    CollapseKeeps(lines, Assigns(name), newLine, Assigns(other));
  }

  // A clean value may still hold one of these three breaks.
  predicate IsSingleLine(value: string) {
    forall i :: 0 <= i < |value| ==> value[i] != '\U{85}' && value[i] != '\U{2028}' && value[i] != '\U{2029}'
  }

  lemma CleanIsUnbroken(name: string, value: string)
    requires IsName(name) && IsClean(value)
    ensures Unbroken(NewLine(name, value)) <==> IsSingleLine(value)
  {
    var line := NewLine(name, value);
    assert forall i :: 0 <= i < |name| ==> line[i] == name[i] && !IsBreak(line[i]);
    assert line[|name|] == '=';
    assert forall i :: 0 <= i < |value| ==> line[|name| + 1 + i] == value[i];
    if Unbroken(line) {
      forall i | 0 <= i < |value|
        ensures !IsBreak(value[i])
      {
        assert !IsBreak(line[|name| + 1 + i]);
      }
    } else {
      var j :| 0 <= j < |line| && IsBreak(line[j]);
      assert j > |name| && IsBreak(value[j - |name| - 1]);
    }
  }

  // Such a value exists: it passes the check and still breaks the line it is written to.
  lemma CleanButBroken()
    ensures IsClean("a\U{2028}b") && !IsSingleLine("a\U{2028}b")
  {
    assert "a\U{2028}b"[1] == '\U{2028}';
  }

  // What is written reads back as the intended lines exactly when the clean value stays on one line.
  lemma WrittenLinesRead(text: string, name: string, value: string)
    requires IsName(name) && IsClean(value)
    ensures var lines := Upserted(SplitLines(text), name, NewLine(name, value));
            SplitLines(Unlines(lines)) == lines <==> IsSingleLine(value)
  {
    var before, newLine := SplitLines(text), NewLine(name, value);
    var lines := Upserted(before, name, newLine);
    CleanIsUnbroken(name, value);
    CollapseMembers(before, Assigns(name), newLine);
    hide NewLine, IsSingleLine, Unbroken;
    var i :| 0 <= i < |lines| && lines[i] == newLine;
    assert SplitLines(Unlines(lines)) == lines ==> Unbroken(SplitLines(Unlines(lines))[i]);
    if IsSingleLine(value) {
      forall j | 0 <= j < |lines|
        ensures Unbroken(lines[j])
      {
        assert lines[j] in lines;
      }
      LinesRoundTrip(lines);
    }
  }

  // --- Import ------------------------------------------------------------------------------------------------

  datatype Pair = Pair(name: string, value: string)

  // The last assignment of a name is the one that is read.
  function Lookup(text: string, name: string): Option<string> {
    var found := Filter(SplitLines(text), Assigns(name));
    if found == [] then None else Some(found[|found| - 1])
  }

  function Folded(text: string, pairs: seq<Pair>): string {
    if pairs == [] then text
    else
      var p := pairs[|pairs| - 1];
      Unlines(Upserted(SplitLines(Folded(text, pairs[..|pairs| - 1])), p.name, NewLine(p.name, p.value)))
  }

  predicate Writable(p: Pair) {
    IsName(p.name) && IsClean(p.value) && IsSingleLine(p.value)
  }

  // One loop of upserts.
  method FoldAll(text: string, pairs: seq<Pair>) returns (r: string)
    ensures r == Folded(text, pairs)
  {
    r := text;
    for i := 0 to |pairs|
      invariant r == Folded(text, pairs[..i])
    {
      assert pairs[..i + 1][..i] == pairs[..i];
      r := UpsertEnvVar(r, pairs[i].name, pairs[i].value);
    }
    assert pairs[..|pairs|] == pairs;
  }

  lemma {:induction false} FoldedTwice(text: string, a: seq<Pair>, b: seq<Pair>)
    ensures Folded(text, a + b) == Folded(Folded(text, a), b)
  {
    hide Upserted, NewLine;
    if b == [] {
      assert a + b == a;
    } else {
      assert (a + b)[..|a + b| - 1] == a + b[..|b| - 1];
      FoldedTwice(text, a, b[..|b| - 1]);
    }
  }

  // The write fold of import_credentials: tokens and wallets, then the configuration, then NETWORK.
  method ImportFold(text: string, tokens: seq<Pair>, config: seq<Pair>, network: string) returns (r: string)
    ensures r == Folded(text, tokens + config + [Pair("NETWORK", network)])
  {
    hide Upserted, NewLine;
    r := FoldAll(text, tokens);
    r := FoldAll(r, config);
    FoldedTwice(text, tokens, config);
    ghost var pairs := tokens + config + [Pair("NETWORK", network)];
    assert pairs[..|pairs| - 1] == tokens + config;
    r := UpsertEnvVar(r, "NETWORK", network);
  }

  // The last value written for a name.
  function LastValue(pairs: seq<Pair>, name: string): Option<string> {
    if pairs == [] then None
    else if pairs[|pairs| - 1].name == name then Some(pairs[|pairs| - 1].value)
    else LastValue(pairs[..|pairs| - 1], name)
  }

  // After the fold a name reads as the last value written for it, and a name not written as it did before.
  lemma {:induction false} FoldIsRead(text: string, pairs: seq<Pair>, name: string)
    requires forall i :: 0 <= i < |pairs| ==> Writable(pairs[i])
    ensures Lookup(Folded(text, pairs), name) ==
            match LastValue(pairs, name) case None => Lookup(text, name) case Some(v) => Some(NewLine(name, v))
  {
    if pairs != [] {
      var init, p := pairs[..|pairs| - 1], pairs[|pairs| - 1];
      FoldIsRead(text, init, name);
      OneWrite(Folded(text, init), p, name);
    }
  }

  lemma OneWrite(text: string, p: Pair, name: string)
    requires Writable(p)
    ensures var r := Unlines(Upserted(SplitLines(text), p.name, NewLine(p.name, p.value)));
            Lookup(r, name) == if p.name == name then Some(NewLine(name, p.value)) else Lookup(text, name)
  {
    var before := SplitLines(text);
    var newLine := NewLine(p.name, p.value);
    NewLineAssigns(p.name, p.value);
    WrittenLinesRead(text, p.name, p.value);
    hide IsAssignment, SplitLines, NewLine, Unlines;
    if p.name == name {
      UpsertIsCanonical(before, name, newLine);
    } else {
      OtherNamesUntouched(before, p.name, newLine, name);
    }
  }

  // The network of the bundle is always read back.
  lemma NetworkIsPinned(text: string, tokens: seq<Pair>, config: seq<Pair>, network: string)
    requires forall p :: p in tokens + config + [Pair("NETWORK", network)] ==> Writable(p)
    ensures Lookup(Folded(text, tokens + config + [Pair("NETWORK", network)]), "NETWORK") ==
            Some(NewLine("NETWORK", network))
  {
    var pairs := tokens + config + [Pair("NETWORK", network)];
    hide Writable;
    FoldIsRead(text, pairs, "NETWORK");
    assert pairs[|pairs| - 1] == Pair("NETWORK", network);
  }

  // A token is read back as the bundle gave it, provided that no later entry writes the same name.
  lemma {:induction false} TokenIsRead(text: string, pairs: seq<Pair>, k: nat)
    requires k < |pairs| && forall i :: 0 <= i < |pairs| ==> Writable(pairs[i])
    requires forall i :: k < i < |pairs| ==> pairs[i].name != pairs[k].name
    ensures Lookup(Folded(text, pairs), pairs[k].name) == Some(NewLine(pairs[k].name, pairs[k].value))
  {
    FoldIsRead(text, pairs, pairs[k].name);
    LastValueAt(pairs, k);
  }

  lemma {:induction false} LastValueAt(pairs: seq<Pair>, k: nat)
    requires k < |pairs| && forall i :: k < i < |pairs| ==> pairs[i].name != pairs[k].name
    ensures LastValue(pairs, pairs[k].name) == Some(pairs[k].value)
  {
    if k < |pairs| - 1 { LastValueAt(pairs[..|pairs| - 1], k); }
  }
}
