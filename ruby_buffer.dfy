/**
 * The Ruby output buffer: an indentation-tracking list of lines, a stack of
 * open module names and a set of requires, rendered behind a fixed licence
 * header. `addLine` recognises the start and the end of a Ruby block by
 * literal patterns only; the functions below state that rule once, and the
 * class applies it line by line.
 */
module RubyText {
  import opened Text
  import JavaText

  // ---------------------------------------------------------------------
  // The line patterns of addLine
  // ---------------------------------------------------------------------

  /** The line opens a block: the indentation grows after it. */
  predicate IsBegin(line: string) {
    EndsWith(line, "(") || EndsWith(line, "[") || EndsWith(line, "|") ||
    line == "begin" || line == "else" || line == "ensure" ||
    StartsWith(line, "case ") || StartsWith(line, "class ") || StartsWith(line, "def ") ||
    StartsWith(line, "if ") || StartsWith(line, "loop ") || StartsWith(line, "module ") ||
    StartsWith(line, "unless ") || StartsWith(line, "when ") || StartsWith(line, "while ")
  }

  /**
   * The line closes a block: the indentation shrinks before it. The source
   * tests `line.equals("else")` twice; one test has the same outcome.
   */
  predicate IsEnd(line: string) {
    line == ")" || line == "]" || line == "else" || line == "end" || line == "ensure" ||
    StartsWith(line, "when ")
  }

  /** Neither pattern matches: the line leaves the indentation alone. */
  predicate Neutral(line: string) {
    !IsBegin(line) && !IsEnd(line)
  }

  /** `2 * level` spaces. */
  function Indent(level: nat): (r: string)
    ensures |r| == 2 * level
    ensures forall i :: 0 <= i < |r| ==> r[i] == ' '
  {
    if level == 0 then "" else Indent(level - 1) + "  "
  }

  /** The level at which the line itself is written: one less for a closer, never below 0. */
  function LevelBefore(level: nat, line: string): nat {
    if IsEnd(line) && level > 0 then level - 1 else level
  }

  /** The level once the line has been added. */
  function LevelAfter(level: nat, line: string): nat {
    LevelBefore(level, line) + (if IsBegin(line) then 1 else 0)
  }

  /** What addLine does to the level, for each of the four kinds of line. */
  lemma LevelChange(level: nat, line: string)
    ensures IsBegin(line) && !IsEnd(line) ==> LevelAfter(level, line) == level + 1
    ensures !IsBegin(line) && IsEnd(line) ==> LevelAfter(level, line) == if level > 0 then level - 1 else 0
    ensures IsBegin(line) && IsEnd(line) ==> LevelAfter(level, line) == if level > 0 then level else 1
    ensures Neutral(line) ==> LevelAfter(level, line) == level
  {
  }

  /**
   * A line is neutral when its first character starts no keyword and is no
   * closing bracket, and its last character is no opening bracket or bar.
   */
  lemma NeutralShape(line: string)
    requires line != []
    requires line[0] !in "bcdeilmuw)]"
    requires line[|line| - 1] !in "([|"
    ensures Neutral(line)
  {
    EndsWithOne(line, '(');
    EndsWithOne(line, '[');
    EndsWithOne(line, '|');
    NoKeyword(line, "case ");
    NoKeyword(line, "class ");
    NoKeyword(line, "def ");
    NoKeyword(line, "if ");
    NoKeyword(line, "loop ");
    NoKeyword(line, "module ");
    NoKeyword(line, "unless ");
    NoKeyword(line, "when ");
    NoKeyword(line, "while ");
  }

  lemma NoKeyword(line: string, keyword: string)
    requires line != [] && keyword != [] && line[0] != keyword[0]
    ensures !StartsWith(line, keyword)
  {
    NotStartsWith(line, keyword, 0);
  }

  /** The same for a line that starts with `li`, which no keyword does. */
  lemma NeutralList(line: string)
    requires |line| >= 2 && line[0] == 'l' && line[1] == 'i'
    requires line[|line| - 1] !in "([|"
    ensures Neutral(line)
  {
    EndsWithOne(line, '(');
    EndsWithOne(line, '[');
    EndsWithOne(line, '|');
    NotStartsWith(line, "loop ", 1);
  }

  /** The empty line of addLine() matches neither pattern. */
  lemma EmptyLineNeutral()
    ensures Neutral("")
  {
  }

  // ---------------------------------------------------------------------
  // The buffer's layout as a value, and its evolution over a list of lines
  // ---------------------------------------------------------------------

  /** The part of the buffer that addLine changes: the level and the stored lines. */
  datatype Layout = Layout(level: int, lines: seq<string>)

  const Start := Layout(0, [])

  /** addLine(line) on a layout. */
  function Step(s: Layout, line: string): (r: Layout)
    requires s.level >= 0
    ensures r.level >= 0
  {
    var before := LevelBefore(s.level, line);
    Layout(LevelAfter(s.level, line), s.lines + [Indent(before) + line])
  }

  /** addLine applied to each line of `ls` in turn. */
  function Feed(s: Layout, ls: seq<string>): (r: Layout)
    requires s.level >= 0
    ensures r.level >= 0
    decreases |ls|
  {
    if ls == [] then s else Step(Feed(s, ls[..|ls| - 1]), ls[|ls| - 1])
  }

  /** One more line is one more step. */
  lemma FeedSnoc(s: Layout, h: seq<string>, line: string)
    requires s.level >= 0
    ensures Feed(s, h + [line]) == Step(Feed(s, h), line)
  {
    assert (h + [line])[..|h|] == h;
  }

  lemma {:induction false} FeedAppend(s: Layout, a: seq<string>, b: seq<string>)
    requires s.level >= 0
    ensures Feed(s, a + b) == Feed(Feed(s, a), b)
    decreases |b|
  {
    if b == [] {
      assert a + b == a;
    } else {
      assert (a + b)[..|a + b| - 1] == a + b[..|b| - 1];
      FeedAppend(s, a, b[..|b| - 1]);
    }
  }

  /**
   * Feeding lines only ever appends: every line stored before is kept as it
   * was, and one line is stored per line fed.
   */
  lemma {:induction false} FeedKeepsLines(s: Layout, ls: seq<string>)
    requires s.level >= 0
    ensures |Feed(s, ls).lines| == |s.lines| + |ls|
    ensures Feed(s, ls).lines[..|s.lines|] == s.lines
    decreases |ls|
  {
    if ls != [] {
      FeedKeepsLines(s, ls[..|ls| - 1]);
      var r := Feed(s, ls[..|ls| - 1]).lines;
      assert (r + [Indent(LevelBefore(Feed(s, ls[..|ls| - 1]).level, ls[|ls| - 1])) + ls[|ls| - 1]])[..|s.lines|]
        == r[..|s.lines|];
    }
  }

  // ---------------------------------------------------------------------
  // Balanced templates
  // ---------------------------------------------------------------------

  /**
   * The number of blocks a list of lines leaves open when started with `open`
   * blocks open, or None when a closer would find no block of its own to close
   * (the case where addLine's floor at 0 comes into play).
   */
  function Walk(ls: seq<string>, open: nat): Option<nat>
    decreases |ls|
  {
    if ls == [] then Some(open)
    else match Walk(ls[..|ls| - 1], open)
      case None => None
      case Some(d) =>
        var line := ls[|ls| - 1];
        if IsEnd(line) && d == 0 then None
        else Some(d - (if IsEnd(line) then 1 else 0) + (if IsBegin(line) then 1 else 0))
  }

  /** Every closer in `ls` closes a block `ls` itself opened, and every block it opens is closed. */
  predicate Balanced(ls: seq<string>) {
    Walk(ls, 0) == Some(0)
  }

  lemma {:induction false} WalkAppend(a: seq<string>, b: seq<string>, open: nat)
    ensures Walk(a + b, open) == match Walk(a, open) case None => None
      case Some(d) => Walk(b, d)
    decreases |b|
  {
    if b == [] {
      assert a + b == a;
    } else {
      assert (a + b)[..|a + b| - 1] == a + b[..|b| - 1];
      WalkAppend(a, b[..|b| - 1], open);
    }
  }

  lemma {:induction false} WalkShift(ls: seq<string>, open: nat, extra: nat)
    requires Walk(ls, open).Some?
    ensures Walk(ls, open + extra) == Some(Walk(ls, open).value + extra)
    decreases |ls|
  {
    if ls != [] {
      WalkShift(ls[..|ls| - 1], open, extra);
    }
  }

  /** A run of neutral lines leaves the number of open blocks unchanged. */
  lemma {:induction false} WalkNeutral(ls: seq<string>, open: nat)
    requires forall i :: 0 <= i < |ls| ==> Neutral(ls[i])
    ensures Walk(ls, open) == Some(open)
    decreases |ls|
  {
    if ls != [] {
      WalkNeutral(ls[..|ls| - 1], open);
    }
  }

  lemma BalancedNeutral(ls: seq<string>)
    requires forall i :: 0 <= i < |ls| ==> Neutral(ls[i])
    ensures Balanced(ls)
  {
    WalkNeutral(ls, 0);
  }

  lemma BalancedAppend(a: seq<string>, b: seq<string>)
    requires Balanced(a) && Balanced(b)
    ensures Balanced(a + b)
  {
    WalkAppend(a, b, 0);
  }

  /** An opener, a balanced body and a closing `end` form a balanced block. */
  lemma BalancedBlock(header: string, body: seq<string>)
    requires IsBegin(header) && !IsEnd(header) && Balanced(body)
    ensures Balanced([header] + body + ["end"])
  {
    OpenerWalk(header);
    WalkShift(body, 0, 1);
    WalkAppend([header], body, 0);
    EndWalk();
    WalkAppend([header] + body, ["end"], 0);
  }

  lemma OpenerWalk(header: string)
    requires IsBegin(header) && !IsEnd(header)
    ensures Walk([header], 0) == Some(1)
  {
    assert [header][..0] == [];
  }

  lemma EndWalk()
    ensures Walk(["end"], 1) == Some(0)
  {
    EndLineCloses();
    assert ["end"][..0] == [];
  }

  /**
   * Feeding lines that leave `open` blocks open, from a level of at least
   * `start`, raises the level by exactly that difference: the floor at 0 never
   * interferes.
   */
  lemma {:induction false} FeedFollowsWalk(s: Layout, ls: seq<string>, start: nat, open: nat)
    requires s.level >= start && Walk(ls, start) == Some(open)
    ensures Feed(s, ls).level == s.level - start + open
    decreases |ls|
  {
    if ls != [] {
      var prefix := ls[..|ls| - 1];
      match Walk(prefix, start)
      case None =>
      case Some(d) =>
        FeedFollowsWalk(s, prefix, start, d);
    }
  }

  /** Adding a balanced list of lines after any history leaves the level where it was. */
  lemma AppendBalanced(history: seq<string>, ls: seq<string>)
    requires Balanced(ls)
    ensures Feed(Start, history + ls).level == Feed(Start, history).level
  {
    FeedAppend(Start, history, ls);
    BalancedKeepsLevel(Feed(Start, history), ls);
  }

  /** A balanced list of lines returns the buffer to the level it started at. */
  lemma BalancedKeepsLevel(s: Layout, ls: seq<string>)
    requires s.level >= 0 && Balanced(ls)
    ensures Feed(s, ls).level == s.level
  {
    FeedFollowsWalk(s, ls, 0, 0);
  }

  // ---------------------------------------------------------------------
  // Modules
  // ---------------------------------------------------------------------

  /** The `module <c>` lines beginModule writes, one per component, in order. */
  function ModuleLines(components: seq<string>): (r: seq<string>)
    ensures |r| == |components|
    decreases |components|
  {
    if components == [] then []
    else ModuleLines(components[..|components| - 1]) + ["module " + components[|components| - 1]]
  }

  /** `n` lines `end`, as endModule writes. */
  function EndLines(n: nat): (r: seq<string>)
    ensures |r| == n
  {
    if n == 0 then [] else EndLines(n - 1) + ["end"]
  }

  /** The stack after pushing `s` in order: the last component ends up on top. */
  function Pushed(s: seq<string>): (r: seq<string>)
    ensures |r| == |s|
    decreases |s|
  {
    if s == [] then [] else [s[|s| - 1]] + Pushed(s[..|s| - 1])
  }

  /** Joining three pieces does not depend on the grouping. */
  lemma Regroup(a: seq<string>, b: seq<string>, c: seq<string>)
    ensures (a + b) + c == a + (b + c)
  {
  }

  /** One more component adds one `module` line at the end and one name on top of the stack. */
  lemma ModuleStep(components: seq<string>, i: nat)
    requires i < |components|
    ensures ModuleLines(components[..i + 1]) == ModuleLines(components[..i]) + ["module " + components[i]]
    ensures Pushed(components[..i + 1]) == [components[i]] + Pushed(components[..i])
  {
    assert components[..i + 1][..i] == components[..i];
  }

  lemma ModuleLineOpens(component: string)
    ensures IsBegin("module " + component) && !IsEnd("module " + component)
  {
    var line := "module " + component;
    StartsWithConcat("module ", component);
    assert line[0] == 'm';
    NotStartsWith(line, "when ", 0);
  }

  lemma EndLineCloses()
    ensures IsEnd("end") && !IsBegin("end")
  {
    EndsWithOne("end", '(');
    EndsWithOne("end", '[');
    EndsWithOne("end", '|');
  }

  /** A module opening raises the level by one per component. */
  lemma {:induction false} ModuleLinesOpen(components: seq<string>)
    ensures Walk(ModuleLines(components), 0) == Some(|components|)
    decreases |components|
  {
    if components != [] {
      var init := components[..|components| - 1];
      ModuleLinesOpen(init);
      ModuleLineOpens(components[|components| - 1]);
      assert ModuleLines(components)[..|components| - 1] == ModuleLines(init);
    }
  }

  /** `n` lines `end` close `n` open blocks. */
  lemma {:induction false} EndLinesClose(n: nat, extra: nat)
    ensures Walk(EndLines(n), n + extra) == Some(extra)
  {
    if n > 0 {
      EndLinesClose(n - 1, extra + 1);
      EndLineCloses();
      assert EndLines(n)[..n - 1] == EndLines(n - 1);
    }
  }

  /** `n` lines `end` close exactly the `n` blocks open before them. */
  lemma EndLinesBalance(n: nat)
    ensures Walk(EndLines(n), n) == Some(0)
  {
    EndLinesClose(n, 0);
  }

  /** Opening a module and closing it again is balanced, whatever the name. */
  lemma ModuleBalanced(components: seq<string>)
    ensures Balanced(ModuleLines(components) + EndLines(|components|))
  {
    ModuleLinesOpen(components);
    EndLinesBalance(|components|);
    WalkAppend(ModuleLines(components), EndLines(|components|), 0);
  }

  /** `n` lines `end` lower the level by `n`, never below 0. */
  lemma {:induction false} FeedEndLines(s: Layout, n: nat)
    requires s.level >= 0
    ensures Feed(s, EndLines(n)).level == if s.level >= n then s.level - n else 0
  {
    if n > 0 {
      FeedEndLines(s, n - 1);
      EndLineCloses();
      assert EndLines(n)[..n - 1] == EndLines(n - 1);
    }
  }

  // ---------------------------------------------------------------------
  // Rendering
  // ---------------------------------------------------------------------

  /** The lines of the licence comment every generated file starts with. */
  const LicenseLines: seq<string> := [
    "#--",
    "# Copyright (c) 2015-2016 Red Hat, Inc.",
    "#",
    "# Licensed under the Apache License, Version 2.0 (the \"License\");",
    "# you may not use this file except in compliance with the License.",
    "# You may obtain a copy of the License at",
    "#",
    "#   http://www.apache.org/licenses/LICENSE-2.0",
    "#",
    "# Unless required by applicable law or agreed to in writing, software",
    "# distributed under the License is distributed on an \"AS IS\" BASIS,",
    "# WITHOUT WARRANTIES OR CONDITIONS OF ANY KIND, either express or implied.",
    "# See the License for the specific language governing permissions and",
    "# limitations under the License.",
    "#++",
    ""
  ]

  /** The licence comment as text: each of its lines followed by a newline. */
  const LicenseHeader: string := BodyText(LicenseLines)

  /** The line that requires `r`. */
  function RequireLine(r: string): string {
    "require '" + r + "'\n"
  }

  /** One `require '<r>'` line per entry, in the given order. */
  function RequireText(rs: seq<string>): string
    decreases |rs|
  {
    if rs == [] then "" else RequireText(rs[..|rs| - 1]) + RequireLine(rs[|rs| - 1])
  }

  /** Every line followed by a newline, in order. */
  function BodyText(ls: seq<string>): string
    decreases |ls|
  {
    if ls == [] then "" else BodyText(ls[..|ls| - 1]) + ls[|ls| - 1] + "\n"
  }

  /** The complete file: header, the requires sorted and without duplicates, a blank line, the body. */
  ghost function Render(required: set<string>, ls: seq<string>): string {
    LicenseHeader + RequireText(SortedOf(required)) + "\n" + BodyText(ls)
  }

  /**
   * The computation of addLine: a closing line is written one level less
   * indented (never below zero), with two spaces per level before it, and an
   * opening line indents the lines after it.
   */
  method IndentLine(level: nat, line: string) returns (text: string, after: nat)
    ensures text == Indent(LevelBefore(level, line)) + line
    ensures after == LevelAfter(level, line)
  {
    var isBegin := IsBegin(line);
    var isEnd := IsEnd(line);
    after := level;
    if isEnd {
      if after > 0 {
        after := after - 1;
      }
    }
    text := "";
    for i := 0 to after
      invariant text == Indent(i)
    {
      text := text + "  ";
    }
    text := text + line;
    if isBegin {
      after := after + 1;
    }
  }

  /** The first loop of toString: one `require` line per entry. */
  method RenderRequires(sorted: seq<string>) returns (head: string)
    ensures head == RequireText(sorted)
  {
    head := "";
    for i := 0 to |sorted|
      invariant head == RequireText(sorted[..i])
    {
      assert sorted[..i + 1][..i] == sorted[..i];
      head := head + RequireLine(sorted[i]);
    }
    assert sorted[..|sorted|] == sorted;
  }

  /** The second loop of toString: every line and its newline. */
  method RenderBody(lines: seq<string>) returns (body: string)
    ensures body == BodyText(lines)
  {
    body := "";
    for i := 0 to |lines|
      invariant body == BodyText(lines[..i])
    {
      assert lines[..i + 1][..i] == lines[..i];
      body := body + lines[i] + "\n";
    }
    assert lines[..|lines|] == lines;
  }

  /** Adding lines to the body only extends the rendered text. */
  lemma {:induction false} BodyTextAppend(a: seq<string>, b: seq<string>)
    ensures BodyText(a + b) == BodyText(a) + BodyText(b)
    decreases |b|
  {
    if b == [] {
      assert a + b == a;
    } else {
      assert (a + b)[..|a + b| - 1] == a + b[..|b| - 1];
      BodyTextAppend(a, b[..|b| - 1]);
    }
  }

  /**
   * Whatever order the requires were added in, and however often, the file
   * lists each of them on exactly one line, in ascending order: the rendering
   * equals that of any strictly ascending listing of the same names, and such
   * a listing has one entry per name.
   */
  lemma RequiresRenderSorted(required: set<string>, listing: seq<string>)
    requires StrictlySorted(listing) && forall x :: x in listing <==> x in required
    ensures RequireText(SortedOf(required)) == RequireText(listing)
    ensures |listing| == |required|
  {
    StrictlySortedUnique(SortedOf(required), listing);
    StrictlySortedCount(listing);
    assert required == set x | x in listing;
  }

  /** A strictly ascending sequence holds as many different strings as it has entries. */
  lemma {:induction false} StrictlySortedCount(listing: seq<string>)
    requires StrictlySorted(listing)
    ensures |set x | x in listing| == |listing|
    decreases |listing|
  {
    if listing != [] {
      var init := listing[..|listing| - 1];
      var last := listing[|listing| - 1];
      assert StrictlySorted(init) by {
        forall i, j | 0 <= i < j < |init| ensures Less(init[i], init[j]) {
          assert init[i] == listing[i] && init[j] == listing[j];
        }
      }
      StrictlySortedCount(init);
      assert last !in init by {
        forall k | 0 <= k < |init| ensures init[k] != last {
          assert Less(listing[k], last);
          LessIrreflexive(last);
        }
      }
      assert listing == init + [last];
      assert (set x | x in listing) == (set x | x in init) + {last};
    }
  }

  /** The output file: `/` replaced by the platform separator, plus `.rb`. */
  function OutputPath(fileName: string, separator: char): (r: string)
    ensures |r| == |fileName| + 3
    ensures r[|fileName|..] == ".rb"
  {
    JavaText.Replace(fileName, '/', separator) + ".rb"
  }

  /** The path keeps every character but `/`, and no `/` is left unless it is the separator. */
  lemma OutputPathChars(fileName: string, separator: char)
    ensures forall i :: 0 <= i < |fileName| ==>
      OutputPath(fileName, separator)[i] == if fileName[i] == '/' then separator else fileName[i]
    ensures separator != '/' ==> '/' !in OutputPath(fileName, separator)[..|fileName|]
  {
    var r := OutputPath(fileName, separator);
    assert r[..|fileName|] == JavaText.Replace(fileName, '/', separator);
  }

  // ---------------------------------------------------------------------
  // The buffer
  // ---------------------------------------------------------------------

  class RubyBuffer {
    var fileName: string
    /** The things to be required, without the keyword and the quotes. */
    var required: set<string>
    /** The stack of open module names; the top is at index 0. */
    var moduleStack: seq<string>
    /** The stored, already indented lines of the body. */
    var lines: seq<string>
    var level: int
    /** Every line given to addLine so far, before indentation. */
    ghost var history: seq<string>

    ghost predicate Valid()
      reads this
    {
      level >= 0 && Layout(level, lines) == Feed(Start, history)
    }

    function Current(): Layout
      reads this
    {
      Layout(level, lines)
    }

    constructor ()
      ensures Valid()
      ensures fileName == "" && required == {} && moduleStack == [] && lines == [] && level == 0
      ensures history == []
    {
      fileName := "";
      required := {};
      moduleStack := [];
      lines := [];
      level := 0;
      history := [];
    }

    method SetFileName(newFileName: string)
      modifies this`fileName
      ensures fileName == newFileName
    {
      fileName := newFileName;
    }

    /** addLine(String). */
    method AddLine(line: string)
      requires Valid()
      modifies this
      ensures Valid()
      ensures history == old(history) + [line]
      ensures Current() == Step(old(Current()), line)
      ensures fileName == old(fileName) && required == old(required) && moduleStack == old(moduleStack)
    {
      var text, after := IndentLine(level, line);
      lines := lines + [text];
      level := after;
      history := history + [line];
      FeedSnoc(Start, old(history), line);
    }

    /** addLine(): an empty line, which leaves the level alone. */
    method AddEmptyLine()
      requires Valid()
      modifies this
      ensures Valid()
      ensures history == old(history) + [""]
      ensures lines == old(lines) + [Indent(old(level))]
      ensures level == old(level)
      ensures fileName == old(fileName) && required == old(required) && moduleStack == old(moduleStack)
    {
      AddLine("");
      assert Indent(old(level)) + "" == Indent(old(level));
    }

    /**
     * addLine(format, args): formats, then adds the result; a format that
     * Formatter rejects throws before anything is added.
     */
    method AddFormattedLine(format: string, args: seq<string>) returns (ok: bool)
      requires Valid()
      modifies this
      ensures Valid()
      ensures ok == JavaText.Format(format, args).Formatted?
      ensures ok ==> history == old(history) + [JavaText.Format(format, args).text]
      ensures !ok ==> history == old(history) && lines == old(lines) && level == old(level)
      ensures fileName == old(fileName) && required == old(required) && moduleStack == old(moduleStack)
    {
      var formatted := JavaText.Format(format, args);
      ok := formatted.Formatted?;
      if ok {
        AddLine(formatted.text);
      }
    }

    /** beginModule: one push and one `module <c>` line per `::`-separated component. */
    method BeginModule(moduleName: string)
      requires Valid()
      modifies this
      ensures Valid()
      ensures history == old(history) + ModuleLines(JavaText.Split(moduleName))
      ensures moduleStack == Pushed(JavaText.Split(moduleName)) + old(moduleStack)
      ensures level == old(level) + |JavaText.Split(moduleName)|
      ensures fileName == old(fileName) && required == old(required)
    {
      OpenModules(JavaText.Split(moduleName));
    }

    /** One component of beginModule: push its name, write its `module` line. */
    method PushModule(component: string)
      requires Valid()
      modifies this
      ensures Valid()
      ensures history == old(history) + ["module " + component]
      ensures moduleStack == [component] + old(moduleStack)
      ensures level == old(level) + 1
      ensures fileName == old(fileName) && required == old(required)
    {
      moduleStack := [component] + moduleStack;
      ModuleLineOpens(component);
      AddLine("module " + component);
    }

    /** The loop of beginModule, over the components already split. */
    method OpenModules(components: seq<string>)
      requires Valid()
      modifies this
      ensures Valid()
      ensures history == old(history) + ModuleLines(components)
      ensures moduleStack == Pushed(components) + old(moduleStack)
      ensures level == old(level) + |components|
      ensures fileName == old(fileName) && required == old(required)
    {
      for i := 0 to |components|
        invariant Valid()
        invariant history == old(history) + ModuleLines(components[..i])
        invariant moduleStack == Pushed(components[..i]) + old(moduleStack)
        invariant level == old(level) + i
        invariant fileName == old(fileName) && required == old(required)
      {
        ModuleStep(components, i);
        PushModule(components[i]);
        Regroup(old(history), ModuleLines(components[..i]), ["module " + components[i]]);
        Regroup([components[i]], Pushed(components[..i]), old(moduleStack));
      }
      assert components[..|components|] == components;
    }

    /**
     * endModule: one `end` line and one pop per component. The names popped are
     * not compared with the components; popping an empty stack throws, after
     * that component's `end` line was written.
     */
    method EndModule(moduleName: string) returns (ok: bool)
      requires Valid()
      modifies this
      ensures Valid()
      ensures var k := |JavaText.Split(moduleName)|;
        && ok == (k <= |old(moduleStack)|)
        && (ok ==> moduleStack == old(moduleStack)[k..] && history == old(history) + EndLines(k))
        && (!ok ==> moduleStack == [] && history == old(history) + EndLines(|old(moduleStack)|) + ["end"])
      ensures fileName == old(fileName) && required == old(required)
    {
      var components := JavaText.Split(moduleName);
      ok := true;
      var i := 0;
      while i < |components|
        invariant 0 <= i <= |components| && i <= |old(moduleStack)|
        invariant Valid()
        invariant moduleStack == old(moduleStack)[i..]
        invariant history == old(history) + EndLines(i)
        invariant fileName == old(fileName) && required == old(required)
      {
        ok := PopModule();
        if !ok {
          assert |old(moduleStack)| == i by {
            assert |old(moduleStack)[i..]| == 0;
          }
          return;
        }
        assert old(moduleStack)[i..][1..] == old(moduleStack)[i + 1..];
        Regroup(old(history), EndLines(i), ["end"]);
        i := i + 1;
      }
    }

    /** One component of endModule: write `end`, then pop, which fails on an empty stack. */
    method PopModule() returns (ok: bool)
      requires Valid()
      modifies this
      ensures Valid()
      ensures history == old(history) + ["end"]
      ensures ok == (old(moduleStack) != [])
      ensures moduleStack == if ok then old(moduleStack)[1..] else []
      ensures fileName == old(fileName) && required == old(required)
    {
      AddLine("end");
      ok := moduleStack != [];
      if ok {
        moduleStack := moduleStack[1..];
      }
    }

    /** The requires, copied into a list and sorted. */
    method SortedRequires() returns (r: seq<string>)
      ensures StrictlySorted(r)
      ensures forall x :: x in r <==> x in required
    {
      r := [];
      var rest := required;
      while rest != {}
        invariant rest <= required
        invariant SortedBy(r, Self) && StrictlySorted(r)
        invariant forall x :: x in r <==> x in required && x !in rest
        decreases rest
      {
        var x :| x in rest;
        InsertStrict(x, r);
        r := InsertBy(x, r, Self);
        StrictIsSorted(r);
        rest := rest - {x};
      }
    }

    /** toString: the licence header, the sorted requires, a blank line, the lines in order. */
    method ToString() returns (text: string)
      ensures text == Render(required, lines)
    {
      var sorted := SortedRequires();
      StrictlySortedUnique(sorted, SortedOf(required));
      var head := RenderRequires(sorted);
      var body := RenderBody(lines);
      text := LicenseHeader + head + "\n" + body;
    }

    /** The file `write` creates under its directory argument. */
    function Path(separator: char): string
      reads this
    {
      OutputPath(fileName, separator)
    }
  }

  /**
   * beginModule followed by endModule on the same name writes as many `end`
   * lines as `module` lines and restores the stack and the level.
   */
  method ModuleRoundTrip(buffer: RubyBuffer, moduleName: string)
    requires buffer.Valid()
    modifies buffer
    ensures buffer.Valid()
    ensures buffer.moduleStack == old(buffer.moduleStack) && buffer.level == old(buffer.level)
    ensures buffer.history ==
      old(buffer.history) + ModuleLines(JavaText.Split(moduleName)) + EndLines(|JavaText.Split(moduleName)|)
  {
    ghost var components := JavaText.Split(moduleName);
    ghost var h0, stack0 := buffer.history, buffer.moduleStack;
    buffer.BeginModule(moduleName);
    var ok := buffer.EndModule(moduleName);
    assert ok;
    PushedDrop(components, stack0);
    HistoryRoundTrip(h0, components);
  }

  /** Dropping the pushed components uncovers the stack underneath: the slice fact the module methods need, kept out of their larger proofs. */
  lemma PushedDrop(components: seq<string>, stack: seq<string>)
    ensures (Pushed(components) + stack)[|components|..] == stack
  {
  }

  /** Lines fed after a module round trip leave the level where it was. */
  lemma HistoryRoundTrip(h0: seq<string>, components: seq<string>)
    ensures Feed(Start, h0 + ModuleLines(components) + EndLines(|components|)).level == Feed(Start, h0).level
  {
    var trip := ModuleLines(components) + EndLines(|components|);
    assert h0 + ModuleLines(components) + EndLines(|components|) == h0 + trip;
    FeedAppend(Start, h0, trip);
    ModuleBalanced(components);
    BalancedKeepsLevel(Feed(Start, h0), trip);
  }
}
