/** The manifest file: a header line and one segment file name per line. */
module Manifest {
  const MAGIC: string := "VIVY_MANIFEST_V1"

  datatype Loaded = Segments(names: seq<string>) | Corrupt | InvalidMagic

  /** The White_Space property of Unicode, which `str::trim` strips. */
  predicate IsSpace(c: char) {
    || '\t' <= c <= '\r'
    || '\U{2000}' <= c <= '\U{200A}'
    || c in {' ', '\U{85}', '\U{A0}', '\U{1680}', '\U{2028}', '\U{2029}', '\U{202F}', '\U{205F}', '\U{3000}'}
  }

  // ---- writing ----

  function Lines(names: seq<string>): string {
    if names == [] then "" else names[0] + "\n" + Lines(names[1..])
  }

  /** The bytes that `save` renames into place. */
  function Save(names: seq<string>): string {
    Lines([MAGIC] + names)
  }

  // ---- reading ----

  function IndexOfNewline(s: string): (i: nat)
    ensures i <= |s| && (i < |s| ==> s[i] == '\n')
    ensures forall j :: 0 <= j < i ==> s[j] != '\n'
  {
    if s == "" || s[0] == '\n' then 0 else IndexOfNewline(s[1..]) + 1
  }

  /** `BufRead::lines` drops the newline and a carriage return before it. */
  function ChopReturn(line: string): string {
    if line != "" && line[|line| - 1] == '\r' then line[..|line| - 1] else line
  }

  function SplitLines(s: string): seq<string>
    decreases |s|
  {
    if s == "" then []
    else
      var i := IndexOfNewline(s);
      if i == |s| then [s] else [ChopReturn(s[..i])] + SplitLines(s[i + 1..])
  }

  function TrimStart(s: string): (t: string)
    ensures t == "" || !IsSpace(t[0])
    ensures forall c :: c in t ==> c in s
  {
    if s == "" || !IsSpace(s[0]) then s else TrimStart(s[1..])
  }

  function TrimEnd(s: string): (t: string)
    ensures t == "" || !IsSpace(t[|t| - 1])
    ensures |t| <= |s| && t == s[..|t|]
  {
    if s == "" || !IsSpace(s[|s| - 1]) then s else TrimEnd(s[..|s| - 1])
  }

  function Trim(s: string): string {
    TrimEnd(TrimStart(s))
  }

  /** The loop body of `load`: keep what is left of each line after trimming, unless nothing is. */
  function Names(lines: seq<string>): seq<string> {
    if lines == [] then []
    else (if Trim(lines[0]) != "" then [Trim(lines[0])] else []) + Names(lines[1..])
  }

  lemma NamesUnfold(lines: seq<string>)
    ensures lines == [] ==> Names(lines) == []
    ensures lines != [] ==>
              Names(lines) == (if Trim(lines[0]) != "" then [Trim(lines[0])] else []) + Names(lines[1..])
  {
  }

  function Parse(lines: seq<string>): Loaded {
    if lines == [] then Corrupt
    else if lines[0] != MAGIC then InvalidMagic
    else Segments(Names(lines[1..]))
  }

  /** `load` of an existing manifest file. */
  method Load(file: string) returns (r: Loaded)
    ensures r == Parse(SplitLines(file))
  {
    hide IsSpace, Trim, SplitLines;
    var lines := SplitLines(file);
    if lines == [] {
      return Corrupt;
    }
    if lines[0] != MAGIC {
      return InvalidMagic;
    }
    hide Names;
    var names: seq<string> := [];
    for i := 1 to |lines|
      invariant names + Names(lines[i..]) == Names(lines[1..])
    {
      NamesUnfold(lines[i..]);
      assert lines[i..][1..] == lines[i + 1..];
      if Trim(lines[i]) != "" {
        names := names + [Trim(lines[i])];
      }
    }
    NamesUnfold(lines[|lines|..]);
    return Segments(names);
  }

  // ---- round trip ----

  /** A name that survives: not empty, on one line, without white space at either end. */
  predicate Plain(name: string) {
    name != "" && '\n' !in name && !IsSpace(name[0]) && !IsSpace(name[|name| - 1])
  }

  lemma NewlineAt(line: string, rest: string)
    requires '\n' !in line
    ensures IndexOfNewline(line + "\n" + rest) == |line|
  {
    var s := line + "\n" + rest;
    assert s[|line|] == '\n';
    assert forall j :: 0 <= j < |line| ==> s[j] == line[j];
  }

  lemma {:induction false} LinesReadBack(names: seq<string>)
    requires forall n :: n in names ==> '\n' !in n && (n == "" || n[|n| - 1] != '\r')
    ensures SplitLines(Lines(names)) == names
  {
    if names == [] {
    } else {
      var s := Lines(names);
      NewlineAt(names[0], Lines(names[1..]));
      LinesReadBack(names[1..]);
      assert s[..|names[0]|] == names[0] && s[|names[0]| + 1..] == Lines(names[1..]);
    }
  }

  lemma TrimsToItself(name: string)
    requires Plain(name)
    ensures Trim(name) == name
  {
  }

  lemma {:induction false} NamesReadBack(names: seq<string>)
    requires forall n :: n in names ==> Plain(n)
    ensures Names(names) == names
  {
    if names == [] {
    } else {
      TrimsToItself(names[0]);
      NamesReadBack(names[1..]);
    }
  }

  lemma SplitLinesUnfolds(s: string)
    requires s != ""
    ensures var i := IndexOfNewline(s);
            SplitLines(s) == if i == |s| then [s] else [ChopReturn(s[..i])] + SplitLines(s[i + 1..])
  {
    hide IndexOfNewline, ChopReturn;
  }

  /** No line holds a newline, and what trimming leaves is plain. */
  lemma {:induction false} LinesHoldNoNewline(s: string)
    ensures forall l :: l in SplitLines(s) ==> '\n' !in l
    decreases |s|
  {
    if s == "" {
    } else {
      hide SplitLines, ChopReturn;
      var i := IndexOfNewline(s);
      SplitLinesUnfolds(s);
      FirstLineHoldsNoNewline(s, i);
      if i < |s| { LinesHoldNoNewline(s[i + 1..]); }
    }
  }

  lemma FirstLineHoldsNoNewline(s: string, i: nat)
    requires i <= |s| && forall j :: 0 <= j < i ==> s[j] != '\n'
    ensures '\n' !in s[..i] && '\n' !in ChopReturn(s[..i]) && (i == |s| ==> s[..i] == s)
  {
  }

  lemma TrimmedIsPlain(line: string)
    requires '\n' !in line && Trim(line) != ""
    ensures Plain(Trim(line))
  {
    var t := TrimStart(line);
    var r := TrimEnd(t);
    assert r[0] == t[0];
    assert forall c :: c in r ==> c in t;
  }

  lemma {:induction false} NamesArePlain(lines: seq<string>)
    requires forall l :: l in lines ==> '\n' !in l
    ensures forall n :: n in Names(lines) ==> Plain(n)
  {
    if lines == [] {
    } else {
      NamesArePlain(lines[1..]);
      if Trim(lines[0]) != "" { TrimmedIsPlain(lines[0]); }
    }
  }

  /** Loading what was saved gives the same names exactly when every name is plain. */
  lemma ManifestReadsBack(names: seq<string>)
    ensures Parse(SplitLines(Save(names))) == Segments(names) <==> forall n :: n in names ==> Plain(n)
  {
    if forall n :: n in names ==> Plain(n) {
      LinesReadBack([MAGIC] + names);
      NamesReadBack(names);
      assert ([MAGIC] + names)[1..] == names;
    } else {
      var lines := SplitLines(Save(names));
      LinesHoldNoNewline(Save(names));
      if lines != [] {
        assert forall l :: l in lines[1..] ==> l in lines;
        NamesArePlain(lines[1..]);
      }
    }
  }

  // ---- what happens to names that are not plain ----

  lemma {:induction false} TrimStartAppend(s: string, c: char)
    requires IsSpace(c)
    ensures TrimStart(s + [c]) == if TrimStart(s) == "" then "" else TrimStart(s) + [c]
  {
    if s == "" {
      assert s + [c] == [c] && [c][1..] == "";
    } else {
      assert (s + [c])[1..] == s[1..] + [c];
      TrimStartAppend(s[1..], c);
    }
  }

  lemma ReturnIsTrimmedAnyway(line: string)
    ensures Trim(ChopReturn(line)) == Trim(line)
  {
    if line != "" && line[|line| - 1] == '\r' {
      var s := line[..|line| - 1];
      assert line == s + ['\r'];
      TrimStartAppend(s, '\r');
      var t := TrimStart(s);
      assert (t + ['\r'])[..|t|] == t;
    }
  }

  lemma {:induction false} LoadedNamesAreTrimmed(names: seq<string>)
    requires forall n :: n in names ==> '\n' !in n
    ensures Names(SplitLines(Lines(names))) == Names(names)
  {
    if names == [] {
    } else {
      var s, rest := Lines(names), Lines(names[1..]);
      NewlineAt(names[0], rest);
      LoadedNamesAreTrimmed(names[1..]);
      ReturnIsTrimmedAnyway(names[0]);
      assert s[..|names[0]|] == names[0] && s[|names[0]| + 1..] == rest;
      assert SplitLines(s) == [ChopReturn(names[0])] + SplitLines(rest);
    }
  }

  /** Names on one line each come back trimmed, and those that are blank do not come back. */
  lemma ManifestTrims(names: seq<string>)
    requires forall n :: n in names ==> '\n' !in n
    ensures Parse(SplitLines(Save(names))) == Segments(Names(names))
  {
    var all := [MAGIC] + names;
    assert all[1..] == names;
    NewlineAt(MAGIC, Lines(names));
    assert Lines(all) == MAGIC + "\n" + Lines(names);
    assert Lines(all)[..|MAGIC|] == MAGIC && Lines(all)[|MAGIC| + 1..] == Lines(names);
    assert SplitLines(Lines(all)) == [ChopReturn(MAGIC)] + SplitLines(Lines(names));
    LoadedNamesAreTrimmed(names);
  }

  /** A name that a directory scan can record and the next load changes: the white space in front is lost. */
  lemma LeadingSpaceIsLost(c: char, name: string)
    requires IsSpace(c) && c != '\n' && Plain(name)
    ensures Parse(SplitLines(Save([[c] + name]))) == Segments([name])
  {
    var long, names: seq<string> := [c] + name, [[c] + name];
    ManifestTrims(names);
    assert long[1..] == name && names[1..] == [];
    TrimsToItself(name);
    hide IsSpace;
    assert TrimStart(long) == TrimStart(name);
    assert Names(names) == [name] + Names(names[1..]);
  }
}
