/**
 * The reader of an ALT container's package index (the output of
 * `apt-cache dumpavail`, one stanza of `Key: value` lines per package,
 * stanzas separated by blank lines), and the filter that turns `rpm -ql`
 * output into a package's file paths.
 */
module AltParser {
  import opened Wrappers
  import opened Text
  import opened Batch
  import CS = ContainerStore

  type PackageInfo = CS.PackageInfo

  /** The package being assembled before any of its fields is read. */
  const Blank: PackageInfo := CS.PackageInfo("", "", "", "", false, false, "")

  /** What the reader carries from line to line. */
  datatype ParseState = ParseState(done: seq<PackageInfo>, pkg: PackageInfo, currentKey: string)

  const Start := ParseState([], Blank, "")

  /** The version recorded for a raw `Version:` value: the resolved one, or the raw value when resolution fails. */
  function ResolveVersion(raw: string, versionOf: string -> Option<string>): string {
    match versionOf(raw)
    case Some(v) => v
    case None => raw
  }

  /** The field a `key: value` line sets: Package, Version and Description are read, other keys ignored. */
  function SetField(pkg: PackageInfo, key: string, value: string, versionOf: string -> Option<string>): PackageInfo {
    if key == "Package" then pkg.(name := value)
    else if key == "Version" then pkg.(version := ResolveVersion(value, versionOf))
    else if key == "Description" then pkg.(description := value)
    else pkg
  }

  /** The trimmed text before the first colon of a line. */
  function KeyOf(line: string): string
    requires IndexOf(line, ':') >= 0
  {
    TrimSpace(line[..IndexOf(line, ':')])
  }

  /** The trimmed text after the first colon of a line. */
  function ValueOf(line: string): string
    requires IndexOf(line, ':') >= 0
  {
    TrimSpace(line[IndexOf(line, ':') + 1..])
  }

  /**
   * The effect of one trimmed line. A blank line closes the stanza only
   * when a package name has been read (otherwise what was read so far
   * carries on into the next stanza). A line with a colon sets the current
   * key and, for Package, Version and Description, that field. Any other
   * line continues the description while the current key is Description.
   */
  function StepLine(st: ParseState, line: string, versionOf: string -> Option<string>): ParseState {
    if line == "" then
      if st.pkg.name != "" then ParseState(st.done + [st.pkg], Blank, "") else st
    else if IndexOf(line, ':') >= 0 then
      ParseState(st.done, SetField(st.pkg, KeyOf(line), ValueOf(line), versionOf), KeyOf(line))
    else if st.currentKey == "Description" then
      st.(pkg := st.pkg.(description := st.pkg.description + "\n" + line))
    else st
  }

  /** The effect of one line of the dump: it is trimmed first. */
  function Step(st: ParseState, raw: string, versionOf: string -> Option<string>): ParseState {
    StepLine(st, TrimSpace(raw), versionOf)
  }

  /** The state after reading `lines` from `st`. */
  function RunFrom(st: ParseState, lines: seq<string>, versionOf: string -> Option<string>): ParseState {
    if lines == [] then st
    else Step(RunFrom(st, lines[..|lines| - 1], versionOf), lines[|lines| - 1], versionOf)
  }

  /** The end of input closes the last stanza when it has a name. */
  function Flush(st: ParseState): seq<PackageInfo> {
    st.done + (if st.pkg.name != "" then [st.pkg] else [])
  }

  /** The packages a dump describes, in stanza order. */
  function Parse(lines: seq<string>, versionOf: string -> Option<string>): seq<PackageInfo> {
    Flush(RunFrom(Start, lines, versionOf))
  }

  /** What the post-processing loop does to each package: installed when listed, manager "apt-get". */
  function Finalize(p: PackageInfo, installed: set<string>): PackageInfo {
    p.(installed := p.installed || p.name in installed, manager := "apt-get")
  }

  /**
   * Reads the dump `lines` into packages, then marks those whose name the
   * container reports as installed (a failed report counts as none) and
   * sets every manager to "apt-get". A failure of the listing command or
   * of its output stream fails the whole read.
   */
  method GetPackages(lines: seq<string>, installedReport: Option<seq<string>>,
                     versionOf: string -> Option<string>, commandFails: bool)
    returns (r: Result<seq<PackageInfo>, string>)
    ensures commandFails <==> r.Err?
    ensures r.Ok? ==> |r.value| == |Parse(lines, versionOf)|
    ensures r.Ok? ==> forall i :: 0 <= i < |r.value| ==>
      r.value[i] == Finalize(Parse(lines, versionOf)[i], InstalledSet(installedReport))
  {
    var names := if installedReport.Some? then installedReport.value else [];
    var installedMap: map<string, bool> := map[];
    for j := 0 to |names|
      invariant installedMap.Keys == set k | 0 <= k < j :: names[k]
      invariant forall n :: n in installedMap ==> installedMap[n]
    {
      installedMap := installedMap[names[j] := true];
    }
    assert installedMap.Keys == InstalledSet(installedReport);

    var packages := ReadStanzas(lines, versionOf);
    if commandFails {
      return Err("package list command failed");
    }
    var marked := new PackageInfo[|packages|](k requires 0 <= k < |packages| => packages[k]);
    MarkInstalled(marked, installedMap);
    r := Ok(marked[..]);
  }

  /** The scanning loop: each line, trimmed, is one StepLine; after the last one the last stanza is closed. */
  method ReadStanzas(lines: seq<string>, versionOf: string -> Option<string>) returns (packages: seq<PackageInfo>)
    ensures packages == Parse(lines, versionOf)
  {
    packages := [];
    var pkg := Blank;
    var currentKey := "";
    for i := 0 to |lines|
      invariant ParseState(packages, pkg, currentKey) == RunFrom(Start, lines[..i], versionOf)
    {
      assert lines[..i + 1][..i] == lines[..i];
      var next := StepLine(ParseState(packages, pkg, currentKey), TrimSpace(lines[i]), versionOf);
      packages, pkg, currentKey := next.done, next.pkg, next.currentKey;
    }
    assert lines[..|lines|] == lines;
    if pkg.name != "" {
      packages := packages + [pkg];
    }
  }

  /** The post-processing loop, in place: every package finalized against the installed map. */
  method MarkInstalled(marked: array<PackageInfo>, installedMap: map<string, bool>)
    modifies marked
    requires forall n :: n in installedMap ==> installedMap[n]
    ensures forall k :: 0 <= k < marked.Length ==> marked[k] == Finalize(old(marked[k]), installedMap.Keys)
  {
    for i := 0 to marked.Length
      invariant forall k :: 0 <= k < i ==> marked[k] == Finalize(old(marked[k]), installedMap.Keys)
      invariant forall k :: i <= k < marked.Length ==> marked[k] == old(marked[k])
    {
      if marked[i].name in installedMap && installedMap[marked[i].name] {
        marked[i] := marked[i].(installed := true);
      }
      marked[i] := marked[i].(manager := "apt-get");
    }
  }

  function InstalledSet(report: Option<seq<string>>): set<string> {
    if report.Some? then set k | 0 <= k < |report.value| :: report.value[k] else {}
  }

  // ---------------------------------------------------------------------
  // Properties of the reader
  // ---------------------------------------------------------------------

  /** The fields a stanza cannot set: no container, not installed, not exporting, no manager. */
  predicate Unset(p: PackageInfo) {
    p.container == "" && !p.installed && !p.exporting && p.manager == ""
  }

  /** Every package read so far has a name and only reader-set fields. */
  predicate GoodState(st: ParseState) {
    && (forall i :: 0 <= i < |st.done| ==> st.done[i].name != "" && Unset(st.done[i]))
    && Unset(st.pkg)
  }

  lemma StepKeepsGood(st: ParseState, line: string, versionOf: string -> Option<string>)
    requires GoodState(st)
    ensures GoodState(StepLine(st, line, versionOf))
  {
    if line == "" {
      CloseKeepsGood(st);
    } else {
      NonBlankKeepsDone(st, line, versionOf);
    }
  }

  lemma SetFieldKeepsUnset(pkg: PackageInfo, key: string, value: string, versionOf: string -> Option<string>)
    requires Unset(pkg)
    ensures Unset(SetField(pkg, key, value, versionOf))
  {
  }

  lemma NonBlankKeepsDone(st: ParseState, line: string, versionOf: string -> Option<string>)
    requires line != "" && Unset(st.pkg)
    ensures StepLine(st, line, versionOf).done == st.done
    ensures Unset(StepLine(st, line, versionOf).pkg)
  {
    var r := StepLine(st, line, versionOf);
    if IndexOf(line, ':') >= 0 {
      var pkg := SetField(st.pkg, KeyOf(line), ValueOf(line), versionOf);
      assert r == ParseState(st.done, pkg, KeyOf(line));
      SetFieldKeepsUnset(st.pkg, KeyOf(line), ValueOf(line), versionOf);
    } else {
      assert r.done == st.done && r.pkg.container == st.pkg.container;
    }
  }

  lemma CloseKeepsGood(st: ParseState)
    requires GoodState(st)
    ensures GoodState(StepLine(st, "", (v: string) => None))
  {
    if st.pkg.name != "" {
      var done := st.done + [st.pkg];
      assert forall i :: 0 <= i < |st.done| ==> done[i] == st.done[i];
    }
  }

  lemma {:induction false} RunKeepsGood(st: ParseState, lines: seq<string>, versionOf: string -> Option<string>)
    requires GoodState(st)
    ensures GoodState(RunFrom(st, lines, versionOf))
  {
    if lines != [] {
      RunKeepsGood(st, lines[..|lines| - 1], versionOf);
      StepKeepsGood(RunFrom(st, lines[..|lines| - 1], versionOf), TrimSpace(lines[|lines| - 1]), versionOf);
    }
  }

  /** Every package read has a non-empty name and none of the fields the stanza does not carry. */
  lemma ParsedPackagesAreNamed(lines: seq<string>, versionOf: string -> Option<string>)
    ensures forall p :: p in Parse(lines, versionOf) ==> p.name != "" && Unset(p)
  {
    RunKeepsGood(Start, lines, versionOf);
  }

  /** Reading a concatenation is reading the first part, then the second. */
  lemma {:induction false} RunFromAppend(st: ParseState, a: seq<string>, b: seq<string>, versionOf: string -> Option<string>)
    ensures RunFrom(st, a + b, versionOf) == RunFrom(RunFrom(st, a, versionOf), b, versionOf)
    decreases |b|
  {
    if b == [] {
      assert a + b == a;
    } else {
      assert (a + b)[..|a + b| - 1] == a + b[..|b| - 1];
      RunFromAppend(st, a, b[..|b| - 1], versionOf);
    }
  }

  /** No white space at either end, and not empty. */
  predicate Clean(s: string) {
    s != [] && !IsSpace(s[0]) && !IsSpace(s[|s| - 1])
  }

  lemma TrimClean(s: string)
    requires Clean(s)
    ensures TrimSpace(s) == s
  {
  }

  lemma TrimLeading(s: string)
    requires Clean(s)
    ensures TrimSpace(" " + s) == s
  {
    assert (" " + s)[1..] == s;
    assert TrimLeft(" " + s) == TrimLeft(s) == s;
    assert TrimRight(s) == s;
  }

  /** A prefix without `c` shifts the first `c` by its length. */
  lemma {:induction false} IndexOfAfter(a: string, b: string, c: char)
    requires c !in a
    ensures IndexOf(a + b, c) == |a| + IndexOf(b, c) || (c !in b && IndexOf(a + b, c) == -1)
    decreases |a|
  {
    if a == [] {
      assert a + b == b;
    } else {
      assert (a + b)[1..] == a[1..] + b;
      IndexOfAfter(a[1..], b, c);
    }
  }

  /** The first colon of `key: value` is the one after the key. */
  lemma IndexAfterKey(key: string, rest: string)
    requires ':' !in key
    ensures IndexOf(key + [':'] + rest, ':') == |key|
  {
    assert key + [':'] + rest == key + ([':'] + rest);
    IndexOfAfter(key, [':'] + rest, ':');
  }

  /** The dump line of one field. */
  function KeyLine(key: string, value: string): string {
    key + ": " + value
  }

  /** A `key: value` line with a clean key and value sets that key, with that value. */
  lemma FieldLine(st: ParseState, key: string, value: string, versionOf: string -> Option<string>)
    requires Clean(key) && ':' !in key && Clean(value)
    ensures Step(st, KeyLine(key, value), versionOf) == ParseState(st.done, SetField(st.pkg, key, value, versionOf), key)
  {
    var line := key + ": " + value;
    assert line == key + [':'] + (" " + value);
    assert line[0] == key[0] && line[|line| - 1] == value[|value| - 1];
    TrimClean(line);
    IndexAfterKey(key, " " + value);
    assert line[..|key|] == key;
    assert line[|key| + 1..] == " " + value;
    TrimClean(key);
    TrimLeading(value);
  }

  lemma PackageLine(st: ParseState, name: string, versionOf: string -> Option<string>)
    requires Clean(name)
    ensures Step(st, KeyLine("Package", name), versionOf) == ParseState(st.done, st.pkg.(name := name), "Package")
  {
    FieldLine(st, "Package", name, versionOf);
  }

  lemma VersionLine(st: ParseState, version: string, versionOf: string -> Option<string>)
    requires Clean(version)
    ensures Step(st, KeyLine("Version", version), versionOf) ==
      ParseState(st.done, st.pkg.(version := ResolveVersion(version, versionOf)), "Version")
  {
    FieldLine(st, "Version", version, versionOf);
  }

  lemma DescriptionLine(st: ParseState, first: string, versionOf: string -> Option<string>)
    requires Clean(first)
    ensures Step(st, KeyLine("Description", first), versionOf) ==
      ParseState(st.done, st.pkg.(description := first), "Description")
  {
    FieldLine(st, "Description", first, versionOf);
  }

  /** A clean continuation line without a colon extends the description. */
  lemma ContinuationLine(st: ParseState, line: string, versionOf: string -> Option<string>)
    requires Clean(line) && ':' !in line && st.currentKey == "Description"
    ensures Step(st, line, versionOf) == st.(pkg := st.pkg.(description := st.pkg.description + "\n" + line))
  {
    TrimClean(line);
  }

  lemma JoinSnoc(xs: seq<string>, x: string, sep: char)
    requires |xs| >= 1
    ensures Join(xs + [x], sep) == Join(xs, sep) + [sep] + x
    decreases |xs|
  {
    if |xs| == 1 {
      assert xs + [x] == [xs[0], x];
      assert Join([x], sep) == x;
    } else {
      assert (xs + [x])[1..] == xs[1..] + [x];
      JoinSnoc(xs[1..], x, sep);
    }
  }

  /** Continuation lines append themselves to the description, one "\n" each. */
  lemma {:induction false} Continuations(st: ParseState, first: string, conts: seq<string>, versionOf: string -> Option<string>)
    requires st.currentKey == "Description" && st.pkg.description == first
    requires forall i :: 0 <= i < |conts| ==> Clean(conts[i]) && ':' !in conts[i]
    ensures RunFrom(st, conts, versionOf) == st.(pkg := st.pkg.(description := Join([first] + conts, '\n')))
    decreases |conts|
  {
    if conts != [] {
      var init, last := conts[..|conts| - 1], conts[|conts| - 1];
      Continuations(st, first, init, versionOf);
      ContinuationStep(st, first, init, last, versionOf);
      JoinFirstSnoc(first, init, last);
      assert init + [last] == conts;
    }
  }

  lemma ContinuationStep(st: ParseState, first: string, init: seq<string>, last: string, versionOf: string -> Option<string>)
    requires st.currentKey == "Description"
    requires RunFrom(st, init, versionOf) == st.(pkg := st.pkg.(description := Join([first] + init, '\n')))
    requires Clean(last) && ':' !in last
    ensures RunFrom(st, init + [last], versionOf) ==
      st.(pkg := st.pkg.(description := Join([first] + init, '\n') + "\n" + last))
  {
    RunSnoc(st, init, last, versionOf);
    ContinuationLine(RunFrom(st, init, versionOf), last, versionOf);
  }

  lemma JoinFirstSnoc(first: string, init: seq<string>, last: string)
    ensures Join([first] + init, '\n') + "\n" + last == Join([first] + (init + [last]), '\n')
  {
    JoinSnoc([first] + init, last, '\n');
    assert [first] + init + [last] == [first] + (init + [last]);
  }

  // ---------------------------------------------------------------------
  // Round trip with a renderer
  // ---------------------------------------------------------------------

  /** A package the dump format can carry: clean one-line name and version, clean description lines, no colon in a continuation line. */
  predicate Renderable(p: PackageInfo) {
    var d := Split(p.description, '\n');
    && Clean(p.name) && Clean(p.version) && Unset(p)
    && (forall i :: 0 <= i < |d| ==> Clean(d[i]))
    && (forall i :: 1 <= i < |d| ==> ':' !in d[i])
  }

  /** The stanza of a package: its three fields, the continuation lines, a blank line. */
  function Stanza(p: PackageInfo): seq<string> {
    var d := Split(p.description, '\n');
    [KeyLine("Package", p.name), KeyLine("Version", p.version), KeyLine("Description", d[0])] + d[1..] + [""]
  }

  function Render(pkgs: seq<PackageInfo>): seq<string> {
    if pkgs == [] then [] else Stanza(pkgs[0]) + Render(pkgs[1..])
  }

  /** The three field lines of a stanza set name, version and the first description line. */
  lemma StanzaHead(done: seq<PackageInfo>, name: string, version: string, first: string, versionOf: string -> Option<string>)
    requires Clean(name) && Clean(version) && Clean(first)
    ensures RunFrom(ParseState(done, Blank, ""), [KeyLine("Package", name), KeyLine("Version", version), KeyLine("Description", first)], versionOf) ==
      ParseState(done, Blank.(name := name, version := ResolveVersion(version, versionOf), description := first), "Description")
  {
    var st0 := ParseState(done, Blank, "");
    PackageLine(st0, name, versionOf);
    var st1 := ParseState(done, Blank.(name := name), "Package");
    VersionLine(st1, version, versionOf);
    var st2 := ParseState(done, Blank.(name := name, version := ResolveVersion(version, versionOf)), "Version");
    DescriptionLine(st2, first, versionOf);
    RunThree(st0, KeyLine("Package", name), KeyLine("Version", version), KeyLine("Description", first), versionOf);
  }

  /** The field lines and continuation lines of a stanza assemble the whole package. */
  lemma StanzaBody(done: seq<PackageInfo>, p: PackageInfo, versionOf: string -> Option<string>)
    requires Renderable(p)
    ensures var d := Split(p.description, '\n');
      RunFrom(ParseState(done, Blank, ""), [KeyLine("Package", p.name), KeyLine("Version", p.version), KeyLine("Description", d[0])] + d[1..], versionOf) ==
      ParseState(done, p.(version := ResolveVersion(p.version, versionOf)), "Description")
  {
    var d := Split(p.description, '\n');
    var head := [KeyLine("Package", p.name), KeyLine("Version", p.version), KeyLine("Description", d[0])];
    StanzaHead(done, p.name, p.version, d[0], versionOf);
    var st3 := ParseState(done, Blank.(name := p.name, version := ResolveVersion(p.version, versionOf), description := d[0]), "Description");
    Continuations(st3, d[0], d[1..], versionOf);
    assert [d[0]] + d[1..] == d;
    JoinSplit(p.description, '\n');
    RunFromAppend(ParseState(done, Blank, ""), head, d[1..], versionOf);
  }

  /** Reading a single line is a single step. */
  lemma RunOne(st: ParseState, x: string, versionOf: string -> Option<string>)
    ensures RunFrom(st, [x], versionOf) == Step(st, x, versionOf)
  {
    assert [x][..0] == [];
  }

  /** An empty trimmed line closes a named package. */
  lemma EmptyClosesNamed(st: ParseState, versionOf: string -> Option<string>)
    requires st.pkg.name != ""
    ensures StepLine(st, [], versionOf) == ParseState(st.done + [st.pkg], Blank, "")
  {
  }

  /** A blank line closes a named package. */
  lemma CloseNamed(st: ParseState, versionOf: string -> Option<string>)
    requires st.pkg.name != ""
    ensures RunFrom(st, [""], versionOf) == ParseState(st.done + [st.pkg], Blank, "")
  {
    RunOne(st, "", versionOf);
    TrimEmpty();
    EmptyClosesNamed(st, versionOf);
  }

  /** Reading one stanza from a fresh state closes exactly that package. */
  lemma StanzaRead(done: seq<PackageInfo>, p: PackageInfo, versionOf: string -> Option<string>)
    requires Renderable(p)
    ensures RunFrom(ParseState(done, Blank, ""), Stanza(p), versionOf) ==
      ParseState(done + [p.(version := ResolveVersion(p.version, versionOf))], Blank, "")
  {
    var d := Split(p.description, '\n');
    var body := [KeyLine("Package", p.name), KeyLine("Version", p.version), KeyLine("Description", d[0])] + d[1..];
    StanzaBody(done, p, versionOf);
    CloseNamed(ParseState(done, p.(version := ResolveVersion(p.version, versionOf)), "Description"), versionOf);
    RunFromAppend(ParseState(done, Blank, ""), body, [""], versionOf);
  }

  lemma AppendAssoc<T>(a: seq<T>, b: seq<T>, c: seq<T>)
    ensures a + b + c == a + (b + c)
  {
  }

  /** What reading does to a rendered package: its version goes through the resolver. */
  function Resolved(versionOf: string -> Option<string>): PackageInfo -> PackageInfo {
    (p: PackageInfo) => p.(version := ResolveVersion(p.version, versionOf))
  }

  lemma ResolvedCons(pkgs: seq<PackageInfo>, versionOf: string -> Option<string>)
    requires pkgs != []
    ensures MapSeq(pkgs, Resolved(versionOf)) == [Resolved(versionOf)(pkgs[0])] + MapSeq(pkgs[1..], Resolved(versionOf))
  {
    MapSeqAppend([pkgs[0]], pkgs[1..], Resolved(versionOf));
    assert [pkgs[0]] + pkgs[1..] == pkgs;
  }

  /** Every package of the list is renderable. */
  predicate AllRenderable(pkgs: seq<PackageInfo>) {
    pkgs == [] || (Renderable(pkgs[0]) && AllRenderable(pkgs[1..]))
  }

  lemma {:induction false} RenderRead(done: seq<PackageInfo>, pkgs: seq<PackageInfo>, versionOf: string -> Option<string>)
    requires AllRenderable(pkgs)
    ensures RunFrom(ParseState(done, Blank, ""), Render(pkgs), versionOf) ==
      ParseState(done + MapSeq(pkgs, Resolved(versionOf)), Blank, "")
    decreases |pkgs|
  {
    var f := Resolved(versionOf);
    if pkgs == [] {
      assert done + MapSeq(pkgs, f) == done;
    } else {
      var p, rest := pkgs[0], pkgs[1..];
      var done1 := done + [f(p)];
      StanzaRead(done, p, versionOf);
      RunFromAppend(ParseState(done, Blank, ""), Stanza(p), Render(rest), versionOf);
      RenderRead(done1, rest, versionOf);
      ResolvedCons(pkgs, versionOf);
      AppendAssoc(done, [f(p)], MapSeq(rest, f));
    }
  }

  /**
   * Round trip: the dump of well-formed packages reads back as those
   * packages, each version passed through the version resolver.
   */
  lemma ParseRender(pkgs: seq<PackageInfo>, versionOf: string -> Option<string>)
    requires AllRenderable(pkgs)
    ensures Parse(Render(pkgs), versionOf) == MapSeq(pkgs, Resolved(versionOf))
  {
    RenderRead([], pkgs, versionOf);
    assert [] + MapSeq(pkgs, Resolved(versionOf)) == MapSeq(pkgs, Resolved(versionOf));
  }

  // ---------------------------------------------------------------------
  // What the line-oriented reader does with other input
  // ---------------------------------------------------------------------

  /** Reading one more line is one more step. */
  lemma RunSnoc(st: ParseState, xs: seq<string>, x: string, versionOf: string -> Option<string>)
    ensures RunFrom(st, xs + [x], versionOf) == Step(RunFrom(st, xs, versionOf), x, versionOf)
  {
    assert (xs + [x])[..|xs|] == xs;
  }

  /** Reading three lines is three steps. */
  lemma RunThree(st: ParseState, a: string, b: string, c: string, versionOf: string -> Option<string>)
    ensures RunFrom(st, [a, b, c], versionOf) == Step(Step(Step(st, a, versionOf), b, versionOf), c, versionOf)
  {
    RunSnoc(st, [], a, versionOf);
    RunSnoc(st, [a], b, versionOf);
    RunSnoc(st, [a, b], c, versionOf);
    assert [] + [a] == [a] && [a] + [b] == [a, b] && [a, b] + [c] == [a, b, c];
  }

  /** Reading four lines is four steps. */
  lemma RunFour(st: ParseState, a: string, b: string, c: string, d: string, versionOf: string -> Option<string>)
    ensures RunFrom(st, [a, b, c, d], versionOf) ==
      Step(Step(Step(Step(st, a, versionOf), b, versionOf), c, versionOf), d, versionOf)
  {
    RunThree(st, a, b, c, versionOf);
    RunSnoc(st, [a, b, c], d, versionOf);
    assert [a, b, c] + [d] == [a, b, c, d];
  }

  /** A blank line after a nameless stanza changes nothing. */
  lemma BlankWithoutName(st: ParseState, versionOf: string -> Option<string>)
    requires st.pkg.name == ""
    ensures Step(st, "", versionOf) == st
  {
    assert TrimSpace("") == "";
  }

  /**
   * A stanza without a Package line is not dropped: the blank line after
   * it does not close it, so its fields carry over into the next package.
   */
  lemma NamelessStanzaCarriesOver(name: string, version: string, versionOf: string -> Option<string>)
    requires Clean(name) && Clean(version)
    ensures Parse([KeyLine("Version", version), "", KeyLine("Package", name)], versionOf) ==
      [Blank.(name := name, version := ResolveVersion(version, versionOf))]
  {
    var v := ResolveVersion(version, versionOf);
    var st1 := ParseState([], Blank.(version := v), "Version");
    VersionLine(Start, version, versionOf);
    BlankWithoutName(st1, versionOf);
    PackageLine(st1, name, versionOf);
    var st3 := ParseState([], Blank.(version := v, name := name), "Package");
    RunThree(Start, KeyLine("Version", version), "", KeyLine("Package", name), versionOf);
    assert RunFrom(Start, [KeyLine("Version", version), "", KeyLine("Package", name)], versionOf) == st3;
  }

  /**
   * A description line holding a colon is read as a new key: it ends the
   * description, and every later continuation line is dropped.
   */
  lemma ColonEndsDescription(name: string, desc: string, key: string, value: string, more: string,
                             versionOf: string -> Option<string>)
    requires Clean(name) && Clean(desc) && Clean(key) && ':' !in key && Clean(value)
    requires key != "Package" && key != "Version" && key != "Description"
    requires Clean(more) && ':' !in more
    ensures Parse([KeyLine("Package", name), KeyLine("Description", desc), KeyLine(key, value), more], versionOf) ==
      [Blank.(name := name, description := desc)]
  {
    var pkg := Blank.(name := name, description := desc);
    PackageLine(Start, name, versionOf);
    var st1 := ParseState([], Blank.(name := name), "Package");
    DescriptionLine(st1, desc, versionOf);
    var st2 := ParseState([], pkg, "Description");
    FieldLine(st2, key, value, versionOf);
    var st3 := ParseState([], pkg, key);
    assert Step(st2, KeyLine(key, value), versionOf) == st3;
    TrimClean(more);
    assert Step(st3, more, versionOf) == st3;
    RunFour(Start, KeyLine("Package", name), KeyLine("Description", desc), KeyLine(key, value), more, versionOf);
  }

  // ---------------------------------------------------------------------
  // File paths from `rpm -ql`
  // ---------------------------------------------------------------------

  /** The lines of the output that name files: trimmed, non-empty, not a directory (no trailing "/"). */
  function KeptPaths(lines: seq<string>): seq<string> {
    if lines == [] then []
    else
      var t := TrimSpace(lines[0]);
      if t != "" && !EndsWith(t, '/') then [t] + KeptPaths(lines[1..]) else KeptPaths(lines[1..])
  }

  /** Line `l` of the output yields path `x`. */
  predicate Yields(l: string, x: string) {
    x == TrimSpace(l) && x != "" && !EndsWith(x, '/')
  }

  /** A path is kept exactly when some line of the output yields it. */
  lemma {:induction false} KeptPathsMembership(lines: seq<string>, x: string)
    ensures x in KeptPaths(lines) <==> exists l :: l in lines && Yields(l, x)
  {
    if lines != [] {
      var t := TrimSpace(lines[0]);
      var rest := lines[1..];
      KeptPathsMembership(rest, x);
      assert KeptPaths(lines) == (if t != "" && !EndsWith(t, '/') then [t] else []) + KeptPaths(rest);
      if x in KeptPaths(lines) {
        if x in KeptPaths(rest) {
          var l :| l in rest && Yields(l, x);
          assert l in lines;
        } else {
          assert Yields(lines[0], x);
        }
      }
      if exists l :: l in lines && Yields(l, x) {
        var l :| l in lines && Yields(l, x);
        if l != lines[0] {
          assert l in rest;
        }
      }
    }
  }

  /**
   * The file paths of a package, from the output of `rpm -ql`: the trimmed
   * non-empty lines that do not end in "/". A failed command yields its error.
   */
  method GetPathByPackageName(output: Result<string, string>) returns (r: Result<seq<string>, string>)
    ensures output.Err? ==> r == Err(output.error)
    ensures output.Ok? ==> r == Ok(KeptPaths(Split(output.value, '\n')))
  {
    if output.Err? {
      return Err(output.error);
    }
    var lines := Split(output.value, '\n');
    var paths: seq<string> := [];
    for i := 0 to |lines|
      invariant paths + KeptPaths(lines[i..]) == KeptPaths(lines)
    {
      assert lines[i..][1..] == lines[i + 1..];
      var trimmed := TrimSpace(lines[i]);
      if trimmed != "" && !EndsWith(trimmed, '/') {
        assert KeptPaths(lines[i..]) == [trimmed] + KeptPaths(lines[i + 1..]);
        assert paths + [trimmed] + KeptPaths(lines[i + 1..]) == paths + KeptPaths(lines[i..]);
        paths := paths + [trimmed];
      } else {
        assert KeptPaths(lines[i..]) == KeptPaths(lines[i + 1..]);
      }
    }
    assert lines[|lines|..] == [];
    assert paths + KeptPaths([]) == paths;
    r := Ok(paths);
  }

  /** A non-blank trimmed line is clean and keeps the line's lack of newlines. */
  lemma TrimmedLine(l: string)
    requires '\n' !in l && TrimSpace(l) != ""
    ensures Clean(TrimSpace(l)) && '\n' !in TrimSpace(l)
  {
    var x := TrimSpace(l);
    var i := TrimSpaceIsSlice(l);
    forall j | 0 <= j < |x| ensures x[j] != '\n' {
      assert x[j] == l[i + j];
    }
  }

  /** Every path kept is clean, names a file and is a single line. */
  lemma KeptPathsMeaning(stdout: string)
    ensures forall x :: x in KeptPaths(Split(stdout, '\n')) ==> Clean(x) && !EndsWith(x, '/') && '\n' !in x
  {
    var lines := Split(stdout, '\n');
    forall x | x in KeptPaths(lines) ensures Clean(x) && !EndsWith(x, '/') && '\n' !in x {
      KeptPathsMembership(lines, x);
      var l :| l in lines && Yields(l, x);
      TrimmedLine(l);
    }
  }
}
