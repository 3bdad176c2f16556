/** Flag files: which lines they contribute, files they include, and where the lines go among the arguments. */
module FlagFiles {
  import opened Common

  /** The readable files, line by line, and how `~` is expanded in names. */
  datatype Site = Site(files: map<string, seq<string>>, expanduser: string -> string)

  datatype Error = IllegalDirective | MissingArgument

  // ---------- lines ----------

  predicate IsBlank(line: string) { line != "" && forall c | c in line :: IsSpace(c) }

  predicate IsDirective(s: string) { "--flagfile=" <= s || s == "--flagfile" || "-flagfile=" <= s || s == "-flagfile" }

  /** `ExtractFilename`; none is its `FlagsError`. */
  function ExtractFilename(site: Site, s: string): Option<string> {
    if "--flagfile=" <= s then Some(site.expanduser(Strip(s[|"--flagfile="|..])))
    else if "-flagfile=" <= s then Some(site.expanduser(Strip(s[|"-flagfile="|..])))
    else None
  }

  datatype Line = Ignored | Include(filename: string) | Illegal | Useful(text: string)

  function Kind(site: Site, line: string): Line {
    if IsBlank(line) || "#" <= line || "//" <= line then Ignored
    else if IsDirective(line) then
      var f := ExtractFilename(site, line);
      if f == None then Illegal else Include(f.value)
    else Useful(Strip(line))
  }

  // ---------- expansion ----------

  datatype Parsed = Parsed(lines: seq<string>, files: seq<string>)

  function Unread(site: Site, parsed: seq<string>): set<string> { site.files.Keys - set f | f in parsed }

  /** Reading a file for the first time leaves one less to read. */
  lemma UnreadShrinks(site: Site, name: string, parsed: seq<string>)
    requires name in site.files
    ensures name !in parsed ==> Unread(site, parsed + [name]) < Unread(site, parsed)
    ensures name in parsed ==> Unread(site, parsed + [name]) == Unread(site, parsed)
  {
    assert name in parsed + [name];
    if name !in parsed { assert name in Unread(site, parsed) && name !in Unread(site, parsed + [name]); }
    assert forall f :: f in parsed + [name] <==> f in parsed || f == name;
  }

  /** The lines of `before` and then those of `r`. */
  function Prepend(before: seq<string>, r: Result<Parsed, Error>): (p: Result<Parsed, Error>)
    ensures p.Ok? <==> r.Ok?
  {
    match r
    case Ok(q) => Ok(q.(lines := before + q.lines))
    case Err(e) => Err(e)
  }

  /** `__GetFlagFileLines`: the useful lines of a file, `parsed` being the files read before. */
  function FileLines(site: Site, name: string, parsed: seq<string>): (r: Result<Parsed, Error>)
    ensures r.Ok? ==> parsed <= r.value.files
    decreases Unread(site, parsed), if name in parsed then 2 else 0, 0
  {
    if name !in site.files then Ok(Parsed([], parsed))
    else
      UnreadShrinks(site, name, parsed);
      LinesFrom(site, site.files[name], parsed + [name])
  }

  /** The rest of the line loop; included files that were not read before are read on the spot. */
  function LinesFrom(site: Site, lines: seq<string>, parsed: seq<string>): (r: Result<Parsed, Error>)
    ensures r.Ok? ==> parsed <= r.value.files
    decreases Unread(site, parsed), 1, |lines|
  {
    if lines == [] then Ok(Parsed([], parsed))
    else
      match Kind(site, lines[0])
      case Ignored => LinesFrom(site, lines[1..], parsed)
      case Useful(text) => Prepend([text], LinesFrom(site, lines[1..], parsed))
      case Illegal => Err(IllegalDirective)
      case Include(sub) =>
        if sub in parsed then LinesFrom(site, lines[1..], parsed)
        else
          var inner :- FileLines(site, sub, parsed);
          Prepend(inner.lines, LinesFrom(site, lines[1..], inner.files))
  }

  // ---------- what gets read ----------

  ghost predicate Includes(site: Site, lines: seq<string>, sub: string) {
    exists i :: 0 <= i < |lines| && Kind(site, lines[i]) == Include(sub)
  }

  ghost predicate HasIllegal(site: Site, lines: seq<string>) {
    exists i :: 0 <= i < |lines| && Kind(site, lines[i]) == Illegal
  }

  /** A chain of readable files, each included by the one before. */
  ghost predicate Chain(site: Site, p: seq<string>) {
    && p != [] && (forall i :: 0 <= i < |p| ==> p[i] in site.files)
    && forall i :: 0 <= i < |p| - 1 ==> Includes(site, site.files[p[i]], p[i + 1])
  }

  ghost predicate Reaches(site: Site, f: string, g: string) {
    exists p :: Chain(site, p) && p[0] == f && p[|p| - 1] == g
  }

  lemma ReachesSelf(site: Site, f: string)
    requires f in site.files
    ensures Reaches(site, f, f)
  {
    assert Chain(site, [f]);
  }

  lemma ReachesVia(site: Site, f: string, sub: string, g: string)
    requires f in site.files && Includes(site, site.files[f], sub) && Reaches(site, sub, g)
    ensures Reaches(site, f, g)
  {
    var p :| Chain(site, p) && p[0] == sub && p[|p| - 1] == g;
    var q := [f] + p;
    assert Chain(site, q) && q[0] == f && q[|q| - 1] == g;
  }

  /** Every readable file included by `lines` is among `files`. */
  ghost predicate Covered(site: Site, lines: seq<string>, files: seq<string>) {
    forall sub | Includes(site, lines, sub) && sub in site.files :: sub in files
  }

  /** From index `k` on, files are readable, have no illegal line, and everything they include was read. */
  ghost predicate Settled(site: Site, files: seq<string>, k: nat) {
    forall i :: k <= i < |files| ==>
      files[i] in site.files && !HasIllegal(site, site.files[files[i]]) && Covered(site, site.files[files[i]], files)
  }

  lemma IncludesTail(site: Site, lines: seq<string>, sub: string)
    requires lines != []
    ensures Includes(site, lines, sub) <==> Kind(site, lines[0]) == Include(sub) || Includes(site, lines[1..], sub)
    ensures HasIllegal(site, lines) <==> Kind(site, lines[0]) == Illegal || HasIllegal(site, lines[1..])
  {
    if Includes(site, lines[1..], sub) {
      var i :| 0 <= i < |lines[1..]| && Kind(site, lines[1..][i]) == Include(sub);
      assert Kind(site, lines[i + 1]) == Include(sub);
    }
    if HasIllegal(site, lines[1..]) {
      var i :| 0 <= i < |lines[1..]| && Kind(site, lines[1..][i]) == Illegal;
      assert Kind(site, lines[i + 1]) == Illegal;
    }
    if exists i :: 0 < i < |lines| && Kind(site, lines[i]) == Include(sub) {
      var i :| 0 < i < |lines| && Kind(site, lines[i]) == Include(sub);
      assert Kind(site, lines[1..][i - 1]) == Include(sub);
    }
    if exists i :: 0 < i < |lines| && Kind(site, lines[i]) == Illegal {
      var i :| 0 < i < |lines| && Kind(site, lines[i]) == Illegal;
      assert Kind(site, lines[1..][i - 1]) == Illegal;
    }
  }

  lemma CoveredGrows(site: Site, lines: seq<string>, files: seq<string>, more: seq<string>)
    requires Covered(site, lines, files) && files <= more
    ensures Covered(site, lines, more)
  {
    forall sub | Includes(site, lines, sub) && sub in site.files ensures sub in more {
      assert sub in files;
    }
  }

  lemma SettledJoin(site: Site, files: seq<string>, more: seq<string>, k: nat)
    requires files <= more && Settled(site, files, k) && Settled(site, more, |files|)
    ensures Settled(site, more, k)
  {
    forall i | k <= i < |more|
      ensures more[i] in site.files && !HasIllegal(site, site.files[more[i]])
              && Covered(site, site.files[more[i]], more)
    {
      if i < |files| {
        assert more[i] == files[i];
        CoveredGrows(site, site.files[files[i]], files, more);
      }
    }
  }

  /** A file read here, once its own lines are done. */
  lemma SettledHead(site: Site, name: string, parsed: seq<string>, files: seq<string>)
    requires name in site.files && parsed + [name] <= files && !HasIllegal(site, site.files[name])
    requires Covered(site, site.files[name], files) && Settled(site, files, |parsed| + 1)
    ensures Settled(site, files, |parsed|)
  {
    assert files[|parsed|] == (parsed + [name])[|parsed|] == name;
  }

  /** Without an error: all that the lines include has been read, and all that was read is settled. */
  lemma {:induction false} LinesSettled(site: Site, lines: seq<string>, parsed: seq<string>)
    requires LinesFrom(site, lines, parsed).Ok?
    ensures var files := LinesFrom(site, lines, parsed).value.files;
      Covered(site, lines, files) && !HasIllegal(site, lines) && Settled(site, files, |parsed|)
    decreases Unread(site, parsed), 1, |lines|
  {
    if lines != [] {
      var files := LinesFrom(site, lines, parsed).value.files;
      forall sub
        ensures Includes(site, lines, sub) <==> Kind(site, lines[0]) == Include(sub) || Includes(site, lines[1..], sub)
      {
        IncludesTail(site, lines, sub);
      }
      IncludesTail(site, lines, "");
      if Kind(site, lines[0]).Include? && Kind(site, lines[0]).filename !in parsed {
        var sub := Kind(site, lines[0]).filename;
        var inner := FileLines(site, sub, parsed).value;
        FileSettled(site, sub, parsed);
        LinesSettled(site, lines[1..], inner.files);
        SettledJoin(site, inner.files, files, |parsed|);
      } else {
        LinesSettled(site, lines[1..], parsed);
      }
    }
  }

  lemma {:induction false} FileSettled(site: Site, name: string, parsed: seq<string>)
    requires FileLines(site, name, parsed).Ok?
    ensures var files := FileLines(site, name, parsed).value.files;
      (name in site.files ==> name in files) && Settled(site, files, |parsed|)
    decreases Unread(site, parsed), if name in parsed then 2 else 0, 0
  {
    if name in site.files {
      var files := FileLines(site, name, parsed).value.files;
      UnreadShrinks(site, name, parsed);
      LinesSettled(site, site.files[name], parsed + [name]);
      SettledHead(site, name, parsed, files);
    }
  }

  // ---------- everything read was reachable ----------

  ghost predicate ReachedFrom(site: Site, lines: seq<string>, g: string) {
    exists sub :: Includes(site, lines, sub) && Reaches(site, sub, g)
  }

  lemma ReachedFromTail(site: Site, lines: seq<string>, g: string)
    requires lines != [] && ReachedFrom(site, lines[1..], g)
    ensures ReachedFrom(site, lines, g)
  {
    hide Includes, Reaches, Kind;
    var sub :| Includes(site, lines[1..], sub) && Reaches(site, sub, g);
    IncludesTail(site, lines, sub);
  }

  /** Whatever the lines make it read is reachable from a file they include, and is read once. */
  lemma {:induction false} LinesReached(site: Site, lines: seq<string>, parsed: seq<string>)
    requires LinesFrom(site, lines, parsed).Ok?
    ensures var files := LinesFrom(site, lines, parsed).value.files;
      forall i :: |parsed| <= i < |files| ==> ReachedFrom(site, lines, files[i])
    decreases Unread(site, parsed), 1, |lines|
  {
    hide Kind, FileLines, Includes, Reaches;
    if lines != [] {
      var files := LinesFrom(site, lines, parsed).value.files;
      var rest := if Kind(site, lines[0]).Include? && Kind(site, lines[0]).filename !in parsed
                  then FileLines(site, Kind(site, lines[0]).filename, parsed).value.files else parsed;
      LinesReached(site, lines[1..], rest);
      forall i | |rest| <= i < |files| ensures ReachedFrom(site, lines, files[i]) {
        ReachedFromTail(site, lines, files[i]);
      }
      if rest != parsed {
        var sub := Kind(site, lines[0]).filename;
        IncludesTail(site, lines, sub);
        FileReached(site, sub, parsed);
        forall i | |parsed| <= i < |rest| ensures ReachedFrom(site, lines, files[i]) {
          assert files[i] == rest[i] && Reaches(site, sub, rest[i]);
        }
      }
    }
  }

  lemma {:induction false} FileReached(site: Site, name: string, parsed: seq<string>)
    requires FileLines(site, name, parsed).Ok?
    ensures var files := FileLines(site, name, parsed).value.files;
      forall i :: |parsed| <= i < |files| ==> Reaches(site, name, files[i])
    decreases Unread(site, parsed), if name in parsed then 2 else 0, 0
  {
    if name in site.files {
      var files := FileLines(site, name, parsed).value.files;
      UnreadShrinks(site, name, parsed);
      LinesReached(site, site.files[name], parsed + [name]);
      ReachesSelf(site, name);
      assert files[|parsed|] == (parsed + [name])[|parsed|];
      forall i | |parsed| < i < |files| ensures Reaches(site, name, files[i]) {
        var sub :| Includes(site, site.files[name], sub) && Reaches(site, sub, files[i]);
        ReachesVia(site, name, sub, files[i]);
      }
    }
  }

  /** A set of settled files is closed: what is reachable from one of them is one of them. */
  lemma {:induction false} ChainSettled(site: Site, files: seq<string>, p: seq<string>)
    requires Settled(site, files, 0) && Chain(site, p) && p[0] in files
    ensures p[|p| - 1] in files
    decreases p
  {
    if |p| > 1 {
      assert Includes(site, site.files[p[0]], p[1]);
      var i :| 0 <= i < |files| && files[i] == p[0];
      assert p[1] in files;
      forall j | 0 <= j < |p[1..]| - 1 ensures Includes(site, site.files[p[1..][j]], p[1..][j + 1]) {
        assert p[1..][j] == p[j + 1] && p[1..][j + 1] == p[j + 2];
      }
      ChainSettled(site, files, p[1..]);
    }
  }

  /** A failed expansion met an illegal directive in a reachable file. */
  lemma {:induction false} LinesFailed(site: Site, lines: seq<string>, parsed: seq<string>)
    requires LinesFrom(site, lines, parsed).Err?
    ensures LinesFrom(site, lines, parsed).error == IllegalDirective
    ensures HasIllegal(site, lines)
            || exists g :: g in site.files && HasIllegal(site, site.files[g]) && ReachedFrom(site, lines, g)
    decreases Unread(site, parsed), 1, |lines|
  {
    IncludesTail(site, lines, "");
    if Kind(site, lines[0]) != Illegal {
      var sub := if Kind(site, lines[0]).Include? then Kind(site, lines[0]).filename else "";
      IncludesTail(site, lines, sub);
      if Kind(site, lines[0]).Include? && sub !in parsed && FileLines(site, sub, parsed).Err? {
        var g := FileFailed(site, sub, parsed);
        assert Includes(site, lines, sub) && Reaches(site, sub, g);
      } else {
        var rest := if Kind(site, lines[0]).Include? && sub !in parsed
                    then FileLines(site, sub, parsed).value.files else parsed;
        LinesFailed(site, lines[1..], rest);
        if !HasIllegal(site, lines[1..]) {
          var g :| g in site.files && HasIllegal(site, site.files[g]) && ReachedFrom(site, lines[1..], g);
          ReachedFromTail(site, lines, g);
        }
      }
    }
  }

  lemma {:induction false} FileFailed(site: Site, name: string, parsed: seq<string>) returns (g: string)
    requires FileLines(site, name, parsed).Err?
    ensures FileLines(site, name, parsed).error == IllegalDirective
    ensures g in site.files && HasIllegal(site, site.files[g]) && Reaches(site, name, g)
    decreases Unread(site, parsed), if name in parsed then 2 else 0, 0
  {
    UnreadShrinks(site, name, parsed);
    LinesFailed(site, site.files[name], parsed + [name]);
    if HasIllegal(site, site.files[name]) {
      ReachesSelf(site, name);
      g := name;
    } else {
      g :| g in site.files && HasIllegal(site, site.files[g]) && ReachedFrom(site, site.files[name], g);
      var sub :| Includes(site, site.files[name], sub) && Reaches(site, sub, g);
      ReachesVia(site, name, sub, g);
    }
  }

  /** Some file reachable from `name` has an illegal directive. */
  ghost predicate MeetsIllegal(site: Site, name: string) {
    exists g :: Reaches(site, name, g) && HasIllegal(site, site.files[g])
  }

  /**
    Expansion of a file, cyclic inclusion or not, behind files that were read with all they include: it
    fails exactly when a reachable file has an illegal directive, and otherwise the files read are
    exactly those read before and the reachable ones.
   */
  lemma FileReadsReachable(site: Site, name: string, parsed: seq<string>)
    requires Settled(site, parsed, 0)
    ensures FileLines(site, name, parsed).Err? <==> MeetsIllegal(site, name)
    ensures FileLines(site, name, parsed).Err? ==> FileLines(site, name, parsed).error == IllegalDirective
    ensures FileLines(site, name, parsed).Ok? ==>
              var files := FileLines(site, name, parsed).value.files;
              Settled(site, files, 0) && forall g :: g in files <==> g in parsed || Reaches(site, name, g)
  {
    hide FileLines, HasIllegal, Includes;
    if FileLines(site, name, parsed).Err? {
      var g := FileFailed(site, name, parsed);
    } else {
      var files := FileLines(site, name, parsed).value.files;
      FileSettled(site, name, parsed);
      FileReached(site, name, parsed);
      SettledJoin(site, parsed, files, 0);
      forall g | Reaches(site, name, g) ensures g in files && !HasIllegal(site, site.files[g]) {
        var p :| Chain(site, p) && p[0] == name && p[|p| - 1] == g;
        ChainSettled(site, files, p);
        var i :| 0 <= i < |files| && files[i] == g;
      }
      forall g | g in files ensures g in parsed || Reaches(site, name, g) {
        var i :| 0 <= i < |files| && files[i] == g;
        assert i < |parsed| ==> parsed[i] == g;
      }
      forall g | g in parsed ensures g in files {
        var i :| 0 <= i < |parsed| && parsed[i] == g;
        assert files[i] == g;
      }
    }
  }

  /** The same for a file expanded on its own. */
  lemma ExpansionReadsReachable(site: Site, name: string)
    ensures FileLines(site, name, []).Err? <==> exists g :: Reaches(site, name, g) && HasIllegal(site, site.files[g])
    ensures FileLines(site, name, []).Ok? ==>
              forall g :: g in FileLines(site, name, []).value.files <==> Reaches(site, name, g)
  {
    FileReadsReachable(site, name, []);
  }

  // ---------- no file twice, no line lost ----------

  /** New files are distinct and none was read before. */
  ghost predicate NewOnce(files: seq<string>, k: nat) {
    forall i, j :: 0 <= i < j < |files| && k <= j ==> files[i] != files[j]
  }

  lemma {:induction false} LinesOnce(site: Site, lines: seq<string>, parsed: seq<string>)
    requires LinesFrom(site, lines, parsed).Ok?
    ensures NewOnce(LinesFrom(site, lines, parsed).value.files, |parsed|)
    decreases Unread(site, parsed), 1, |lines|
  {
    if lines != [] {
      var files := LinesFrom(site, lines, parsed).value.files;
      if Kind(site, lines[0]).Include? && Kind(site, lines[0]).filename !in parsed {
        var sub := Kind(site, lines[0]).filename;
        var inner := FileLines(site, sub, parsed).value.files;
        LinesOnce(site, lines[1..], inner);
        if sub in site.files {
          UnreadShrinks(site, sub, parsed);
          LinesOnce(site, site.files[sub], parsed + [sub]);
          assert forall i :: 0 <= i < |parsed| ==> inner[i] == (parsed + [sub])[i];
          assert inner[|parsed|] == (parsed + [sub])[|parsed|];
        }
        assert forall i :: 0 <= i < |inner| ==> files[i] == inner[i];
      } else {
        LinesOnce(site, lines[1..], parsed);
      }
    }
  }

  /** Every file an expansion from nothing reads, it reads once. */
  lemma ExpansionReadsOnce(site: Site, name: string)
    requires FileLines(site, name, []).Ok?
    ensures Distinct(FileLines(site, name, []).value.files)
  {
    if name in site.files {
      UnreadShrinks(site, name, []);
      LinesOnce(site, site.files[name], [] + [name]);
    }
  }

  function UsefulLines(site: Site, lines: seq<string>): seq<string> {
    if lines == [] then []
    else (if Kind(site, lines[0]).Useful? then [Kind(site, lines[0]).text] else []) + UsefulLines(site, lines[1..])
  }

  /** A file's own useful lines. */
  function OwnLines(site: Site, file: string): seq<string> {
    UsefulLines(site, if file in site.files then site.files[file] else [])
  }

  /** The useful lines of all files from index `k` on. */
  ghost function UsefulOf(site: Site, files: seq<string>, k: nat): multiset<string>
    decreases |files| - k
  {
    if k >= |files| then multiset{}
    else multiset(OwnLines(site, files[k])) + UsefulOf(site, files, k + 1)
  }

  lemma {:induction false} UsefulSplit(site: Site, files: seq<string>, more: seq<string>, k: nat)
    requires files <= more && k <= |files|
    ensures UsefulOf(site, more, k) == UsefulOf(site, files, k) + UsefulOf(site, more, |files|)
    decreases |files| - k
  {
    if k < |files| { UsefulSplit(site, files, more, k + 1); }
  }

  /** Every useful line of every file read appears exactly once. */
  lemma {:induction false} LinesKept(site: Site, lines: seq<string>, parsed: seq<string>)
    requires LinesFrom(site, lines, parsed).Ok?
    ensures var p := LinesFrom(site, lines, parsed).value;
      multiset(p.lines) == multiset(UsefulLines(site, lines)) + UsefulOf(site, p.files, |parsed|)
    decreases Unread(site, parsed), 1, |lines|
  {
    hide Kind, FileLines, UsefulOf;
    if lines == [] {
      NoneUseful(site, parsed);
    } else {
      var p := LinesFrom(site, lines, parsed).value;
      if Kind(site, lines[0]).Include? && Kind(site, lines[0]).filename !in parsed {
        var sub := Kind(site, lines[0]).filename;
        var inner := FileLines(site, sub, parsed).value;
        LinesKept(site, lines[1..], inner.files);
        FileKept(site, sub, parsed);
        UsefulSplit(site, inner.files, p.files, |parsed|);
      } else {
        LinesKept(site, lines[1..], parsed);
      }
    }
  }

  lemma NoneUseful(site: Site, files: seq<string>)
    ensures UsefulOf(site, files, |files|) == multiset{}
  {
  }

  lemma {:induction false} FileKept(site: Site, name: string, parsed: seq<string>)
    requires FileLines(site, name, parsed).Ok?
    ensures var p := FileLines(site, name, parsed).value; multiset(p.lines) == UsefulOf(site, p.files, |parsed|)
    decreases Unread(site, parsed), if name in parsed then 2 else 0, 0
  {
    if name in site.files {
      var p := FileLines(site, name, parsed).value;
      UnreadShrinks(site, name, parsed);
      LinesKept(site, site.files[name], parsed + [name]);
      assert p.files[|parsed|] == (parsed + [name])[|parsed|];
    }
  }

  // ---------- the order of the lines ----------

  /** Some first lines, then the others: `first` is what came of the first ones. */
  function Then(site: Site, first: Result<Parsed, Error>, rest: seq<string>): Result<Parsed, Error> {
    match first
    case Ok(p) => Prepend(p.lines, LinesFrom(site, rest, p.files))
    case Err(e) => Err(e)
  }

  lemma ThenPrepended(site: Site, before: seq<string>, first: Result<Parsed, Error>, rest: seq<string>)
    ensures Then(site, Prepend(before, first), rest) == Prepend(before, Then(site, first, rest))
  {
    if first.Ok? { PrependMore(before, first.value.lines, LinesFrom(site, rest, first.value.files)); }
  }

  /** Lines give their output one after the other, each knowing the files read by those before it. */
  lemma {:induction false} LinesInOrder(site: Site, a: seq<string>, b: seq<string>, parsed: seq<string>)
    ensures LinesFrom(site, a + b, parsed) == Then(site, LinesFrom(site, a, parsed), b)
    decreases |a|
  {
    hide Kind, FileLines;
    if a == [] {
      assert a + b == b;
      PrependNothing(LinesFrom(site, b, parsed));
    } else {
      assert (a + b)[0] == a[0] && (a + b)[1..] == a[1..] + b;
      match Kind(site, a[0])
      case Ignored => LinesInOrder(site, a[1..], b, parsed);
      case Useful(text) =>
        LinesInOrder(site, a[1..], b, parsed);
        ThenPrepended(site, [text], LinesFrom(site, a[1..], parsed), b);
      case Illegal =>
      case Include(sub) =>
        if sub in parsed {
          LinesInOrder(site, a[1..], b, parsed);
        } else if FileLines(site, sub, parsed).Ok? {
          var inner := FileLines(site, sub, parsed).value;
          LinesInOrder(site, a[1..], b, inner.files);
          ThenPrepended(site, inner.lines, LinesFrom(site, a[1..], inner.files), b);
        }
    }
  }

  /**
    What stands where a line stood: its own text, or the lines of the file it includes when that was not read
    before.
   */
  function InPlace(site: Site, line: string, parsed: seq<string>): Result<Parsed, Error> {
    match Kind(site, line)
    case Ignored => Ok(Parsed([], parsed))
    case Useful(text) => Ok(Parsed([text], parsed))
    case Illegal => Err(IllegalDirective)
    case Include(sub) => if sub in parsed then Ok(Parsed([], parsed)) else FileLines(site, sub, parsed)
  }

  /** Between the output of the lines before a line and that of the lines behind it stands the line's own. */
  lemma StandsInPlace(site: Site, a: seq<string>, line: string, b: seq<string>, parsed: seq<string>)
    requires LinesFrom(site, a + [line] + b, parsed).Ok?
    ensures LinesFrom(site, a, parsed).Ok? && InPlace(site, line, LinesFrom(site, a, parsed).value.files).Ok?
    ensures var before := LinesFrom(site, a, parsed).value;
      var here := InPlace(site, line, before.files).value;
      LinesFrom(site, b, here.files).Ok?
      && LinesFrom(site, a + [line] + b, parsed).value.lines
         == before.lines + here.lines + LinesFrom(site, b, here.files).value.lines
  {
    hide Kind, FileLines;
    assert a + [line] + b == a + ([line] + b);
    LinesInOrder(site, a, [line] + b, parsed);
    assert ([line] + b)[0] == line && ([line] + b)[1..] == b;
  }

  /** The elements of `a` occur in `b` in the same order. */
  ghost predicate Subsequence(a: seq<string>, b: seq<string>)
    decreases |b|
  {
    a == [] || (b != [] && (Subsequence(a, b[1..]) || (a[0] == b[0] && Subsequence(a[1..], b[1..]))))
  }

  lemma {:induction false} SubsequencePrepended(a: seq<string>, before: seq<string>, b: seq<string>)
    requires Subsequence(a, b)
    ensures Subsequence(a, before + b)
  {
    if before == [] {
      assert before + b == b;
    } else {
      SubsequencePrepended(a, before[1..], b);
      assert (before + b)[1..] == before[1..] + b;
    }
  }

  lemma {:induction false} SubsequenceAppended(a: seq<string>, b: seq<string>, more: seq<string>)
    requires Subsequence(a, b)
    ensures Subsequence(a, b + more)
    decreases |b|
  {
    if a != [] {
      assert (b + more)[1..] == b[1..] + more;
      if Subsequence(a, b[1..]) {
        SubsequenceAppended(a, b[1..], more);
      } else {
        SubsequenceAppended(a[1..], b[1..], more);
      }
    }
  }

  /** The useful lines of each file from index `k` on are among `lines` in their order. */
  ghost predicate InOrder(site: Site, files: seq<string>, k: nat, lines: seq<string>) {
    forall i :: k <= i < |files| ==> Subsequence(OwnLines(site, files[i]), lines)
  }

  lemma InOrderJoin(site: Site, files: seq<string>, more: seq<string>, k: nat, a: seq<string>, b: seq<string>)
    requires files <= more && InOrder(site, files, k, a) && InOrder(site, more, |files|, b)
    ensures InOrder(site, more, k, a + b)
  {
    hide Subsequence, OwnLines;
    forall i | k <= i < |more| ensures Subsequence(OwnLines(site, more[i]), a + b) {
      if i < |files| {
        assert more[i] == files[i];
        SubsequenceAppended(OwnLines(site, files[i]), a, b);
      } else {
        SubsequencePrepended(OwnLines(site, more[i]), a, b);
      }
    }
  }

  lemma InOrderBehind(site: Site, files: seq<string>, k: nat, before: seq<string>, lines: seq<string>)
    requires InOrder(site, files, k, lines)
    ensures InOrder(site, files, k, before + lines)
  {
    hide Subsequence, OwnLines;
    forall i | k <= i < |files| ensures Subsequence(OwnLines(site, files[i]), before + lines) {
      SubsequencePrepended(OwnLines(site, files[i]), before, lines);
    }
  }

  lemma {:induction false} LinesOrdered(site: Site, lines: seq<string>, parsed: seq<string>)
    requires LinesFrom(site, lines, parsed).Ok?
    ensures var p := LinesFrom(site, lines, parsed).value;
      Subsequence(UsefulLines(site, lines), p.lines) && InOrder(site, p.files, |parsed|, p.lines)
    decreases Unread(site, parsed), 1, |lines|
  {
    hide Kind, FileLines, InOrder;
    if lines == [] {
      NothingToOrder(site, parsed);
    } else {
      var p := LinesFrom(site, lines, parsed).value;
      UsefulFirst(site, lines);
      match Kind(site, lines[0])
      case Ignored => LinesOrdered(site, lines[1..], parsed);
      case Useful(text) =>
        LinesOrdered(site, lines[1..], parsed);
        var rest := LinesFrom(site, lines[1..], parsed).value;
        assert p.lines == [text] + rest.lines && p.lines[1..] == rest.lines;
        InOrderBehind(site, rest.files, |parsed|, [text], rest.lines);
      case Illegal =>
      case Include(sub) =>
        if sub in parsed {
          LinesOrdered(site, lines[1..], parsed);
        } else {
          var inner := FileLines(site, sub, parsed).value;
          var rest := LinesFrom(site, lines[1..], inner.files).value;
          LinesOrdered(site, lines[1..], inner.files);
          FileOrdered(site, sub, parsed);
          SubsequencePrepended(UsefulLines(site, lines[1..]), inner.lines, rest.lines);
          InOrderJoin(site, inner.files, rest.files, |parsed|, inner.lines, rest.lines);
        }
    }
  }

  lemma NothingToOrder(site: Site, files: seq<string>)
    ensures InOrder(site, files, |files|, [])
  {
  }

  lemma UsefulFirst(site: Site, lines: seq<string>)
    requires lines != []
    ensures var useful, k := UsefulLines(site, lines), Kind(site, lines[0]);
      if k.Useful? then useful != [] && useful[0] == k.text && useful[1..] == UsefulLines(site, lines[1..])
      else useful == UsefulLines(site, lines[1..])
  {
  }

  /** The useful lines of every file read keep their order in the expansion. */
  lemma {:induction false} FileOrdered(site: Site, name: string, parsed: seq<string>)
    requires FileLines(site, name, parsed).Ok?
    ensures var p := FileLines(site, name, parsed).value; InOrder(site, p.files, |parsed|, p.lines)
    decreases Unread(site, parsed), if name in parsed then 2 else 0, 0
  {
    hide Subsequence, UsefulLines, LinesFrom;
    if name in site.files {
      var p := FileLines(site, name, parsed).value;
      UnreadShrinks(site, name, parsed);
      LinesOrdered(site, site.files[name], parsed + [name]);
      assert p.files[|parsed|] == (parsed + [name])[|parsed|];
      assert OwnLines(site, name) == UsefulLines(site, site.files[name]);
    }
  }

  // ---------- command lines ----------

  predicate Bare(arg: string) { arg == "--flagfile" || arg == "-flagfile" }

  /** Arguments after this one are left alone. */
  predicate Stops(arg: string, gnu: bool) { arg == "--" || (!("-" <= arg) && !gnu) }

  /** The lines of all flag files and the arguments left. */
  datatype Scanned = Scanned(lines: seq<string>, kept: seq<string>)

  function Scan(site: Site, argv: seq<string>, gnu: bool, parsed: seq<string>): Result<Scanned, Error>
    decreases |argv|
  {
    if argv == [] then Ok(Scanned([], []))
    else if IsDirective(argv[0]) then
      if Bare(argv[0]) && |argv| == 1 then Err(MissingArgument)
      else
        var name := if Bare(argv[0]) then site.expanduser(argv[1]) else ExtractFilename(site, argv[0]).value;
        var p :- FileLines(site, name, parsed);
        var q :- Scan(site, argv[if Bare(argv[0]) then 2 else 1..], gnu, p.files);
        Ok(Scanned(q.lines + p.lines, q.kept))
    else if Stops(argv[0], gnu) then Ok(Scanned([], argv))
    else
      var q :- Scan(site, argv[1..], gnu, parsed);
      Ok(q.(kept := [argv[0]] + q.kept))
  }

  /** `ReadFlagsFromFiles`: the lines of later files first, then the arguments. */
  function Expanded(site: Site, argv: seq<string>, gnu: bool): Result<seq<string>, Error> {
    var q :- Scan(site, argv, gnu, []);
    Ok(q.lines + q.kept)
  }

  /** The directives taken out of a command line, each with the argument it takes. */
  function Directives(argv: seq<string>, gnu: bool): seq<seq<string>>
    decreases |argv|
  {
    if argv == [] || (Bare(argv[0]) && |argv| == 1) then []
    else if IsDirective(argv[0]) then
      var n := if Bare(argv[0]) then 2 else 1;
      [argv[..n]] + Directives(argv[n..], gnu)
    else if Stops(argv[0], gnu) then []
    else Directives(argv[1..], gnu)
  }

  /** What stays when the directives are cut out of `argv` one after the other. */
  ghost predicate CutOut(argv: seq<string>, cuts: seq<seq<string>>, kept: seq<string>)
    decreases |cuts|
  {
    if cuts == [] then kept == argv
    else exists k :: 0 <= k <= |kept| && CutAt(argv, cuts, kept, k)
  }

  ghost predicate CutAt(argv: seq<string>, cuts: seq<seq<string>>, kept: seq<string>, k: nat)
    requires cuts != [] && k <= |kept|
    decreases |cuts|, 0
  {
    var n := k + |cuts[0]|;
    n <= |argv| && argv[..n] == kept[..k] + cuts[0] && CutOut(argv[n..], cuts[1..], kept[k..])
  }

  lemma CutFirst(argv: seq<string>, cuts: seq<seq<string>>, kept: seq<string>, n: nat)
    requires n <= |argv| && CutOut(argv[n..], cuts, kept)
    ensures CutOut(argv, [argv[..n]] + cuts, kept)
  {
    var all := [argv[..n]] + cuts;
    assert all[1..] == cuts && kept[..0] + argv[..n] == argv[..n] && kept[0..] == kept;
    assert CutAt(argv, all, kept, 0);
  }

  lemma CutLater(arg: string, argv: seq<string>, cuts: seq<seq<string>>, kept: seq<string>)
    requires CutOut(argv, cuts, kept)
    ensures CutOut([arg] + argv, cuts, [arg] + kept)
  {
    if cuts != [] {
      var k :| 0 <= k <= |kept| && CutAt(argv, cuts, kept, k);
      var n := k + |cuts[0]|;
      assert ([arg] + argv)[..n + 1] == [arg] + argv[..n] && ([arg] + argv)[n + 1..] == argv[n..];
      assert ([arg] + kept)[..k + 1] == [arg] + kept[..k] && ([arg] + kept)[k + 1..] == kept[k..];
      assert CutAt([arg] + argv, cuts, [arg] + kept, k + 1);
    }
  }

  /** The arguments keep their order, and only directives with their arguments are missing. */
  lemma {:induction false} OnlyDirectivesCut(site: Site, argv: seq<string>, gnu: bool, parsed: seq<string>)
    requires Scan(site, argv, gnu, parsed).Ok?
    ensures CutOut(argv, Directives(argv, gnu), Scan(site, argv, gnu, parsed).value.kept)
    decreases |argv|
  {
    hide CutOut, CutAt, FileLines;
    if argv == [] || (!IsDirective(argv[0]) && Stops(argv[0], gnu)) {
      NothingCut(argv);
    } else if IsDirective(argv[0]) {
      var n := if Bare(argv[0]) then 2 else 1;
      var name := if Bare(argv[0]) then site.expanduser(argv[1]) else ExtractFilename(site, argv[0]).value;
      var p := FileLines(site, name, parsed).value;
      OnlyDirectivesCut(site, argv[n..], gnu, p.files);
      CutFirst(argv, Directives(argv[n..], gnu), Scan(site, argv[n..], gnu, p.files).value.kept, n);
    } else {
      OnlyDirectivesCut(site, argv[1..], gnu, parsed);
      CutLater(argv[0], argv[1..], Directives(argv[1..], gnu), Scan(site, argv[1..], gnu, parsed).value.kept);
      assert [argv[0]] + argv[1..] == argv;
    }
  }

  /** All files read for a command line, in order. */
  function FilesRead(site: Site, argv: seq<string>, gnu: bool, parsed: seq<string>): seq<string>
    requires Scan(site, argv, gnu, parsed).Ok?
    decreases |argv|
  {
    if argv == [] then parsed
    else if IsDirective(argv[0]) then
      var name := if Bare(argv[0]) then site.expanduser(argv[1]) else ExtractFilename(site, argv[0]).value;
      FilesRead(site, argv[if Bare(argv[0]) then 2 else 1..], gnu, FileLines(site, name, parsed).value.files)
    else if Stops(argv[0], gnu) then parsed
    else FilesRead(site, argv[1..], gnu, parsed)
  }

  /** The files that the directives of a command line name, up to where the scan stops. */
  function Named(site: Site, argv: seq<string>, gnu: bool): seq<string>
    decreases |argv|
  {
    if argv == [] || (Bare(argv[0]) && |argv| == 1) then []
    else if IsDirective(argv[0]) then
      var name := if Bare(argv[0]) then site.expanduser(argv[1]) else ExtractFilename(site, argv[0]).value;
      [name] + Named(site, argv[if Bare(argv[0]) then 2 else 1..], gnu)
    else if Stops(argv[0], gnu) then []
    else Named(site, argv[1..], gnu)
  }

  /** The scan comes to a last argument that is a directive without its file. */
  predicate LacksFile(argv: seq<string>, gnu: bool)
    decreases |argv|
  {
    argv != [] && if IsDirective(argv[0]) then
                    (Bare(argv[0]) && |argv| == 1) || LacksFile(argv[if Bare(argv[0]) then 2 else 1..], gnu)
                  else !Stops(argv[0], gnu) && LacksFile(argv[1..], gnu)
  }

  ghost predicate ReachedBy(site: Site, names: seq<string>, g: string) {
    exists i :: 0 <= i < |names| && Reaches(site, names[i], g)
  }

  ghost predicate SomeIllegal(site: Site, names: seq<string>) {
    exists i :: 0 <= i < |names| && MeetsIllegal(site, names[i])
  }

  lemma NamesCons(site: Site, name: string, names: seq<string>, g: string)
    ensures ReachedBy(site, [name] + names, g) <==> Reaches(site, name, g) || ReachedBy(site, names, g)
    ensures SomeIllegal(site, [name] + names) <==> MeetsIllegal(site, name) || SomeIllegal(site, names)
  {
    hide Reaches, MeetsIllegal;
    var all := [name] + names;
    assert all[0] == name && forall i :: 0 <= i < |names| ==> all[i + 1] == names[i];
    if ReachedBy(site, all, g) {
      var i :| 0 <= i < |all| && Reaches(site, all[i], g);
      assert i > 0 ==> names[i - 1] == all[i];
    }
    if SomeIllegal(site, all) {
      var i :| 0 <= i < |all| && MeetsIllegal(site, all[i]);
      assert i > 0 ==> names[i - 1] == all[i];
    }
  }

  /**
    A whole command line: it fails exactly when a file reachable from those its directives name has an
    illegal directive, or when its last directive lacks its file, and otherwise reads exactly the
    reachable files.
   */
  lemma {:induction false} ArgumentsReadReachable(site: Site, argv: seq<string>, gnu: bool, parsed: seq<string>)
    requires Settled(site, parsed, 0)
    ensures var names := Named(site, argv, gnu);
      match Scan(site, argv, gnu, parsed)
      case Err(e) => e == if SomeIllegal(site, names) then IllegalDirective else MissingArgument
      case Ok(_) => !SomeIllegal(site, names) && !LacksFile(argv, gnu)
    ensures Scan(site, argv, gnu, parsed).Err? ==> SomeIllegal(site, Named(site, argv, gnu)) || LacksFile(argv, gnu)
    ensures Scan(site, argv, gnu, parsed).Ok? ==>
              forall g :: g in FilesRead(site, argv, gnu, parsed)
                          <==> g in parsed || ReachedBy(site, Named(site, argv, gnu), g)
    decreases |argv|
  {
    hide FileLines, Settled, Reaches, MeetsIllegal, ReachedBy, SomeIllegal, Stops;
    NoNames(site);
    if argv == [] || (Bare(argv[0]) && |argv| == 1) {
    } else if IsDirective(argv[0]) {
      var n := if Bare(argv[0]) then 2 else 1;
      var name := if Bare(argv[0]) then site.expanduser(argv[1]) else ExtractFilename(site, argv[0]).value;
      var names := Named(site, argv[n..], gnu);
      FileReadsReachable(site, name, parsed);
      forall g
        ensures ReachedBy(site, [name] + names, g) <==> Reaches(site, name, g) || ReachedBy(site, names, g)
      {
        NamesCons(site, name, names, g);
      }
      NamesCons(site, name, names, name);
      if FileLines(site, name, parsed).Ok? {
        ArgumentsReadReachable(site, argv[n..], gnu, FileLines(site, name, parsed).value.files);
      }
    } else if !Stops(argv[0], gnu) {
      ArgumentsReadReachable(site, argv[1..], gnu, parsed);
    }
  }

  lemma NoNames(site: Site)
    ensures !SomeIllegal(site, []) && forall g :: !ReachedBy(site, [], g)
  {
  }

  /** The lines put in front are the useful lines of all files read, each as often as its file was read. */
  lemma {:induction false} ArgumentLinesKept(site: Site, argv: seq<string>, gnu: bool, parsed: seq<string>)
    requires Scan(site, argv, gnu, parsed).Ok?
    ensures parsed <= FilesRead(site, argv, gnu, parsed)
    ensures multiset(Scan(site, argv, gnu, parsed).value.lines)
            == UsefulOf(site, FilesRead(site, argv, gnu, parsed), |parsed|)
    decreases |argv|
  {
    hide FileLines, UsefulOf, Stops;
    NoneUseful(site, parsed);
    if argv == [] {
    } else if IsDirective(argv[0]) {
      var n := if Bare(argv[0]) then 2 else 1;
      var name := if Bare(argv[0]) then site.expanduser(argv[1]) else ExtractFilename(site, argv[0]).value;
      var files := FileLines(site, name, parsed).value.files;
      FileKept(site, name, parsed);
      ArgumentLinesKept(site, argv[n..], gnu, files);
      UsefulSplit(site, files, FilesRead(site, argv, gnu, parsed), |parsed|);
    } else if !Stops(argv[0], gnu) {
      ArgumentLinesKept(site, argv[1..], gnu, parsed);
    }
  }

  /** The useful lines of every file read keep their order in front of the arguments, too. */
  lemma {:induction false} ArgumentLinesOrdered(site: Site, argv: seq<string>, gnu: bool, parsed: seq<string>)
    requires Scan(site, argv, gnu, parsed).Ok?
    ensures InOrder(site, FilesRead(site, argv, gnu, parsed), |parsed|, Scan(site, argv, gnu, parsed).value.lines)
    decreases |argv|
  {
    hide FileLines, Stops, InOrder;
    NothingToOrder(site, parsed);
    if argv == [] {
    } else if IsDirective(argv[0]) {
      var n := if Bare(argv[0]) then 2 else 1;
      var name := if Bare(argv[0]) then site.expanduser(argv[1]) else ExtractFilename(site, argv[0]).value;
      var p := FileLines(site, name, parsed).value;
      FileOrdered(site, name, parsed);
      ArgumentLinesOrdered(site, argv[n..], gnu, p.files);
      ArgumentLinesKept(site, argv[n..], gnu, p.files);
      var later := Scan(site, argv[n..], gnu, p.files).value.lines;
      InOrderBefore(site, p.files, FilesRead(site, argv, gnu, parsed), |parsed|, p.lines, later);
    } else if !Stops(argv[0], gnu) {
      ArgumentLinesOrdered(site, argv[1..], gnu, parsed);
    }
  }

  lemma InOrderBefore(site: Site, files: seq<string>, more: seq<string>, k: nat, a: seq<string>, b: seq<string>)
    requires files <= more && InOrder(site, files, k, a) && InOrder(site, more, |files|, b)
    ensures InOrder(site, more, k, b + a)
  {
    hide Subsequence, OwnLines;
    forall i | k <= i < |more| ensures Subsequence(OwnLines(site, more[i]), b + a) {
      if i < |files| {
        assert more[i] == files[i];
        SubsequencePrepended(OwnLines(site, files[i]), b, a);
      } else {
        SubsequenceAppended(OwnLines(site, more[i]), b, a);
      }
    }
  }

  // ---------- where everything stands ----------

  /** The lines a file named by a directive contributes, `before` and `after` being the files read up to then. */
  ghost predicate BlockOf(site: Site, name: string, block: seq<string>, before: seq<string>, after: seq<string>) {
    && FileLines(site, name, before) == Ok(Parsed(block, after))
    && multiset(block) == UsefulOf(site, after, |before|)
    && InOrder(site, after, |before|, block)
  }

  /**
    `all`, cut at the falling indices `at`: the arguments are at its end, and before them stand the lines of the
    files, those of each directive before those of the directives in front of it.
   */
  ghost predicate LaidOut(site: Site, names: seq<string>, all: seq<string>, at: seq<nat>, read: seq<seq<string>>) {
    && |at| == |read| == |names| + 1 && at[|names|] == 0 && at[0] <= |all|
    && forall i :: 0 <= i < |names| ==>
      at[i + 1] <= at[i] <= |all| && BlockOf(site, names[i], all[at[i + 1]..at[i]], read[i], read[i + 1])
  }

  /** What a command line becomes: the useful lines of all files its directives reach, then what they leave. */
  ghost predicate Arranged(site: Site, argv: seq<string>, gnu: bool, all: seq<string>, at: seq<nat>,
                           read: seq<seq<string>>)
  {
    var names := Named(site, argv, gnu);
    && LaidOut(site, names, all, at, read) && read[0] == []
    && CutOut(argv, Directives(argv, gnu), all[at[0]..])
    && multiset(all[..at[0]]) == UsefulOf(site, read[|names|], 0)
    && InOrder(site, read[|names|], 0, all[..at[0]])
    && forall g :: g in read[|names|] <==> ReachedBy(site, names, g)
  }

  lemma LaidOutBehind(site: Site, name: string, names: seq<string>, q: seq<string>, p: Parsed, parsed: seq<string>,
                      at: seq<nat>, read: seq<seq<string>>)
    requires LaidOut(site, names, q, at, read) && at[0] == |q| && read[0] == p.files
    requires BlockOf(site, name, p.lines, parsed, p.files)
    ensures LaidOut(site, [name] + names, q + p.lines, [|q + p.lines|] + at, [parsed] + read)
  {
    hide BlockOf;
    var all, ats, told := q + p.lines, [|q + p.lines|] + at, [parsed] + read;
    forall i | 0 <= i < |[name] + names|
      ensures ats[i + 1] <= ats[i] <= |all|
      ensures BlockOf(site, ([name] + names)[i], all[ats[i + 1]..ats[i]], told[i], told[i + 1])
    {
      if i == 0 {
        assert all[ats[1]..ats[0]] == p.lines;
      } else {
        assert at[i] <= at[i - 1] <= |q|;
        assert all[ats[i + 1]..ats[i]] == q[at[i]..at[i - 1]];
      }
    }
  }

  lemma LaidOutBefore(site: Site, names: seq<string>, q: seq<string>, more: seq<string>, at: seq<nat>,
                      read: seq<seq<string>>)
    requires LaidOut(site, names, q, at, read)
    ensures LaidOut(site, names, q + more, at, read)
  {
    hide BlockOf;
    forall i | 0 <= i < |names|
      ensures at[i + 1] <= at[i] <= |q + more|
      ensures BlockOf(site, names[i], (q + more)[at[i + 1]..at[i]], read[i], read[i + 1])
    {
      assert (q + more)[at[i + 1]..at[i]] == q[at[i + 1]..at[i]];
    }
  }

  lemma {:induction false} ScanLaidOut(site: Site, argv: seq<string>, gnu: bool, parsed: seq<string>)
    returns (at: seq<nat>, read: seq<seq<string>>)
    requires Scan(site, argv, gnu, parsed).Ok?
    ensures var lines, names := Scan(site, argv, gnu, parsed).value.lines, Named(site, argv, gnu);
      LaidOut(site, names, lines, at, read) && at[0] == |lines| && read[0] == parsed
      && read[|names|] == FilesRead(site, argv, gnu, parsed)
    decreases |argv|
  {
    hide FileLines, Stops, LaidOut, BlockOf, Kind;
    if argv != [] && IsDirective(argv[0]) {
      var n := if Bare(argv[0]) then 2 else 1;
      var name := if Bare(argv[0]) then site.expanduser(argv[1]) else ExtractFilename(site, argv[0]).value;
      var p := FileLines(site, name, parsed).value;
      var q := Scan(site, argv[n..], gnu, p.files).value;
      at, read := ScanLaidOut(site, argv[n..], gnu, p.files);
      BlockHolds(site, name, parsed);
      LaidOutBehind(site, name, Named(site, argv[n..], gnu), q.lines, p, parsed, at, read);
      at, read := [|q.lines + p.lines|] + at, [parsed] + read;
    } else if argv == [] || Stops(argv[0], gnu) {
      at, read := [0], [parsed];
      NothingLaidOut(site, parsed);
    } else {
      at, read := ScanLaidOut(site, argv[1..], gnu, parsed);
    }
  }

  lemma NothingLaidOut(site: Site, parsed: seq<string>)
    ensures LaidOut(site, [], [], [0], [parsed])
  {
  }

  lemma BlockHolds(site: Site, name: string, parsed: seq<string>)
    requires FileLines(site, name, parsed).Ok?
    ensures var p := FileLines(site, name, parsed).value; BlockOf(site, name, p.lines, parsed, p.files)
  {
    hide FileLines;
    FileKept(site, name, parsed);
    FileOrdered(site, name, parsed);
  }

  /**
    Flags from files precede the arguments, those of a later directive precede those of an earlier one, and the
    arguments keep their order.
   */
  lemma ExpandedArranged(site: Site, argv: seq<string>, gnu: bool) returns (at: seq<nat>, read: seq<seq<string>>)
    requires Expanded(site, argv, gnu).Ok?
    ensures Arranged(site, argv, gnu, Expanded(site, argv, gnu).value, at, read)
  {
    hide LaidOut, FileLines, CutOut, Named, Directives, UsefulOf, InOrder, Scan, FilesRead;
    var q := Scan(site, argv, gnu, []).value;
    var names := Named(site, argv, gnu);
    at, read := ScanLaidOut(site, argv, gnu, []);
    AtBounds(site, names, q.lines, at, read);
    LaidOutBefore(site, names, q.lines, q.kept, at, read);
    AtBounds(site, names, q.lines + q.kept, at, read);
    OnlyDirectivesCut(site, argv, gnu, []);
    ArgumentLinesKept(site, argv, gnu, []);
    ArgumentLinesOrdered(site, argv, gnu, []);
    ArgumentsReadReachable(site, argv, gnu, []);
    assert (q.lines + q.kept)[..at[0]] == q.lines && (q.lines + q.kept)[at[0]..] == q.kept;
  }

  /**
    What the caller of `ReadFlagsFromFiles` sees: an error exactly when a file that can be reached has an illegal
    directive or the last directive has no file, otherwise the arguments with the flags of the files in front.
   */
  ghost predicate ExpandsTo(site: Site, argv: seq<string>, gnu: bool, r: Result<seq<string>, Error>) {
    && (r.Err? <==> SomeIllegal(site, Named(site, argv, gnu)) || LacksFile(argv, gnu))
    && (r.Err? ==>
          r.error == if SomeIllegal(site, Named(site, argv, gnu)) then IllegalDirective else MissingArgument)
    && (r.Ok? ==> exists at, read :: Arranged(site, argv, gnu, r.value, at, read))
  }

  lemma ExpandedAsPromised(site: Site, argv: seq<string>, gnu: bool)
    ensures ExpandsTo(site, argv, gnu, Expanded(site, argv, gnu))
  {
    hide Named, LacksFile, SomeIllegal, Arranged, Scan;
    ArgumentsReadReachable(site, argv, gnu, []);
    if Expanded(site, argv, gnu).Ok? { var at, read := ExpandedArranged(site, argv, gnu); }
  }

  lemma AtBounds(site: Site, names: seq<string>, all: seq<string>, at: seq<nat>, read: seq<seq<string>>)
    requires LaidOut(site, names, all, at, read)
    ensures |at| == |read| == |names| + 1 && at[0] <= |all|
  {
  }

  // ---------- the words of the language ----------

  /** A line that includes a file, in either form; blanks around the name do not count. */
  lemma IncludeLines(site: Site, f: string)
    ensures Kind(site, "--flagfile=" + f) == Kind(site, "-flagfile=" + f) == Include(site.expanduser(Strip(f)))
  {
    hide Strip;
    DashedLine(site, "--flagfile=" + f);
    DashedLine(site, "-flagfile=" + f);
    assert ("--flagfile=" + f)[|"--flagfile="|..] == f && ("-flagfile=" + f)[|"-flagfile="|..] == f;
    assert !("--flagfile=" <= "-flagfile=" + f) by { assert ("-flagfile=" + f)[1] == 'f'; }
  }

  /** A line with a dash first is neither blank nor a comment. */
  lemma DashedLine(site: Site, line: string)
    requires line != "" && line[0] == '-'
    ensures !IsBlank(line) && !("#" <= line) && !("//" <= line)
  {
    assert line[0] in line && !IsSpace(line[0]);
  }

  /** The other lines: comments, a directive without its file, a line of blanks, and a flag with blanks around it. */
  lemma OtherLines(site: Site, s: string)
    ensures Kind(site, "#" + s) == Kind(site, "//" + s) == Ignored
    ensures Kind(site, "--flagfile") == Kind(site, "-flagfile") == Illegal
    ensures Kind(site, " \t\n") == Ignored
  {
    DashedLine(site, "--flagfile");
    DashedLine(site, "-flagfile");
    assert "--flagfile"[1] == '-' && "-flagfile="[1] == 'f';
    assert |"--flagfile"| == 10 && |"--flagfile="| == 11 && |"-flagfile"| == 9 && |"-flagfile="| == 10;
  }

  /** Every other line is a flag. */
  lemma UsefulExactly(site: Site, line: string)
    ensures Kind(site, line).Useful?
            <==> !("#" <= line) && !("//" <= line) && !("--flagfile=" <= line) && !("-flagfile=" <= line)
                 && line != "--flagfile" && line != "-flagfile"
                 && (line == "" || exists i :: 0 <= i < |line| && line[i] !in " \t\n\r\U{00000B}\U{00000C}")
    ensures Kind(site, line).Useful? ==> Kind(site, line).text == Strip(line)
  {
    if "--flagfile=" <= line { assert line[0] == '-'; }
    if "-flagfile=" <= line { assert line[0] == '-'; }
    if exists i :: 0 <= i < |line| && line[i] !in " \t\n\r\U{00000B}\U{00000C}" {
      var i :| 0 <= i < |line| && line[i] !in " \t\n\r\U{00000B}\U{00000C}";
      assert line[i] in line && !IsSpace(line[i]);
    } else if line != "" {
      assert forall c | c in line :: IsSpace(c);
    }
  }

  /** An argument that neither names a file nor ends the search for directives. */
  ghost predicate Ordinary(arg: string, gnu: bool) {
    && arg != "--" && (gnu || (arg != "" && arg[0] == '-'))
    && arg != "--flagfile" && arg != "-flagfile" && !("--flagfile=" <= arg) && !("-flagfile=" <= arg)
  }

  lemma OrdinaryPasses(arg: string, gnu: bool)
    requires Ordinary(arg, gnu)
    ensures !IsDirective(arg) && !Stops(arg, gnu)
  {
  }

  lemma {:induction false} OrdinaryPass(site: Site, a: seq<string>, rest: seq<string>, gnu: bool,
                                        parsed: seq<string>)
    requires forall i :: 0 <= i < |a| ==> Ordinary(a[i], gnu)
    ensures Scan(site, a + rest, gnu, parsed) == JoinScan([], a, Scan(site, rest, gnu, parsed))
    decreases |a|
  {
    hide FileLines, IsDirective, Stops, Ordinary, Bare, ExtractFilename;
    var r := Scan(site, rest, gnu, parsed);
    if a == [] {
      assert a + rest == rest;
      JoinNothing(r);
    } else {
      assert (a + rest)[0] == a[0] && (a + rest)[1..] == a[1..] + rest;
      OrdinaryPasses(a[0], gnu);
      OrdinaryPass(site, a[1..], rest, gnu, parsed);
      if r.Ok? { assert [a[0]] + (a[1..] + r.value.kept) == a + r.value.kept; }
    }
  }

  lemma OrdinaryScan(site: Site, b: seq<string>, gnu: bool, parsed: seq<string>)
    requires forall i :: 0 <= i < |b| ==> Ordinary(b[i], gnu)
    ensures Scan(site, b, gnu, parsed) == Ok(Scanned([], b))
  {
    hide FileLines, Ordinary;
    OrdinaryPass(site, b, [], gnu, parsed);
    var none: seq<string> := [];
    assert b + none == b && none + none == none;
  }

  /** Behind `--`, or without GNU order behind an argument that is not a flag, nothing is expanded. */
  lemma StopsThere(site: Site, a: seq<string>, stop: string, b: seq<string>, gnu: bool)
    requires forall i :: 0 <= i < |a| ==> Ordinary(a[i], gnu)
    requires stop == "--" || (!gnu && (stop == "" || stop[0] != '-'))
    ensures Expanded(site, a + [stop] + b, gnu) == Ok(a + [stop] + b)
  {
    assert a + [stop] + b == a + ([stop] + b);
    OrdinaryPass(site, a, [stop] + b, gnu, []);
    assert ([stop] + b)[0] == stop && !IsDirective(stop);
    assert Scan(site, [stop] + b, gnu, []) == Ok(Scanned([], [stop] + b));
    var none: seq<string> := [];
    assert none + none == none && none + (a + ([stop] + b)) == a + ([stop] + b);
  }

  /** One directive among ordinary arguments, in each of its forms: its file's lines move to the front. */
  lemma OneDirective(site: Site, a: seq<string>, f: string, b: seq<string>, gnu: bool)
    requires forall i :: 0 <= i < |a| ==> Ordinary(a[i], gnu)
    requires forall i :: 0 <= i < |b| ==> Ordinary(b[i], gnu)
    ensures var r := AtFront(FileLines(site, site.expanduser(f), []), a + b);
      Expanded(site, a + ["--flagfile", f] + b, gnu) == Expanded(site, a + ["-flagfile", f] + b, gnu) == r
    ensures var r := AtFront(FileLines(site, site.expanduser(Strip(f)), []), a + b);
      Expanded(site, a + ["--flagfile=" + f] + b, gnu) == Expanded(site, a + ["-flagfile=" + f] + b, gnu) == r
    ensures Expanded(site, a + ["--flagfile"], gnu) == Expanded(site, a + ["-flagfile"], gnu) == Err(MissingArgument)
  {
    hide FileLines, Strip;
    BareDirective(site, a, "--flagfile", f, b, gnu);
    BareDirective(site, a, "-flagfile", f, b, gnu);
    assert ("--flagfile=" + f)[|"--flagfile="|..] == f && ("-flagfile=" + f)[|"-flagfile="|..] == f;
    assert !("--flagfile=" <= "-flagfile=" + f) by { assert ("-flagfile=" + f)[1] == 'f'; }
    JoinedDirective(site, a, "--flagfile=" + f, site.expanduser(Strip(f)), b, gnu);
    JoinedDirective(site, a, "-flagfile=" + f, site.expanduser(Strip(f)), b, gnu);
  }

  /** The lines of a file, then `args`. */
  function AtFront(r: Result<Parsed, Error>, args: seq<string>): Result<seq<string>, Error> {
    match r
    case Ok(p) => Ok(p.lines + args)
    case Err(e) => Err(e)
  }

  lemma BareDirective(site: Site, a: seq<string>, bare: string, f: string, b: seq<string>, gnu: bool)
    requires Bare(bare)
    requires forall i :: 0 <= i < |a| ==> Ordinary(a[i], gnu)
    requires forall i :: 0 <= i < |b| ==> Ordinary(b[i], gnu)
    ensures Expanded(site, a + [bare, f] + b, gnu) == AtFront(FileLines(site, site.expanduser(f), []), a + b)
    ensures Expanded(site, a + [bare], gnu) == Err(MissingArgument)
  {
    hide FileLines;
    OrdinaryPass(site, a, [bare], gnu, []);
    assert a + [bare, f] + b == a + ([bare, f] + b);
    OrdinaryPass(site, a, [bare, f] + b, gnu, []);
    assert ([bare, f] + b)[0] == bare && ([bare, f] + b)[1] == f && ([bare, f] + b)[2..] == b;
    NothingKept(FileLines(site, site.expanduser(f), []), site, b, gnu);
    FrontScan(site, a, [bare, f] + b, site.expanduser(f), b, gnu);
  }

  lemma JoinedDirective(site: Site, a: seq<string>, d: string, name: string, b: seq<string>, gnu: bool)
    requires IsDirective(d) && !Bare(d) && ExtractFilename(site, d) == Some(name)
    requires forall i :: 0 <= i < |a| ==> Ordinary(a[i], gnu)
    requires forall i :: 0 <= i < |b| ==> Ordinary(b[i], gnu)
    ensures Expanded(site, a + [d] + b, gnu) == AtFront(FileLines(site, name, []), a + b)
  {
    hide FileLines;
    assert a + [d] + b == a + ([d] + b);
    OrdinaryPass(site, a, [d] + b, gnu, []);
    assert ([d] + b)[0] == d && ([d] + b)[1..] == b;
    NothingKept(FileLines(site, name, []), site, b, gnu);
    FrontScan(site, a, [d] + b, name, b, gnu);
  }

  lemma NothingKept(r: Result<Parsed, Error>, site: Site, b: seq<string>, gnu: bool)
    ensures r.Ok? && Scan(site, b, gnu, r.value.files).Ok? ==>
              var q := Scan(site, b, gnu, r.value.files).value;
              JoinScan(r.value.lines, [], Ok(q)) == Ok(Scanned(q.lines + r.value.lines, q.kept))
  {
    if r.Ok? && Scan(site, b, gnu, r.value.files).Ok? {
      var q := Scan(site, b, gnu, r.value.files).value;
      assert [] + q.kept == q.kept;
    }
  }

  /** The lines of a file in front of what ordinary arguments become. */
  lemma FrontScan(site: Site, a: seq<string>, rest: seq<string>, name: string, b: seq<string>, gnu: bool)
    requires forall i :: 0 <= i < |b| ==> Ordinary(b[i], gnu)
    requires var r := FileLines(site, name, []);
      Scan(site, rest, gnu, [])
      == if r.Err? then Err(r.error) else JoinScan(r.value.lines, [], Scan(site, b, gnu, r.value.files))
    ensures var joined := JoinScan([], a, Scan(site, rest, gnu, []));
      AtFront(FileLines(site, name, []), a + b)
      == if joined.Err? then Err(joined.error) else Ok(joined.value.lines + joined.value.kept)
  {
    hide FileLines, Scan, Ordinary;
    if FileLines(site, name, []).Ok? {
      var p := FileLines(site, name, []).value;
      OrdinaryScan(site, b, gnu, p.files);
      assert [] + p.lines == p.lines && p.lines + [] == p.lines && [] + b == b;
    }
  }

  /** Of two values of a flag, the one in the file comes first and the one on the command line last. */
  lemma CommandLineWins(site: Site)
    requires site.files == map["a" := ["--x=1"]] && site.expanduser("a") == "a"
    ensures Expanded(site, ["--flagfile", "a", "--x=2"], true) == Ok(["--x=1", "--x=2"])
    ensures Expanded(site, ["--x=2", "--flagfile=a"], true) == Ok(["--x=1", "--x=2"])
  {
    hide FileLines, Strip, Kind, Scan;
    OneFlag(site);
    StripEnds("", "a", "");
    assert "" + "a" + "" == "a";
    OrdinaryFlag();
    OneDirective(site, [], "a", ["--x=2"], true);
    OneDirective(site, ["--x=2"], "a", [], true);
    assert [] + ["--flagfile", "a"] + ["--x=2"] == ["--flagfile", "a", "--x=2"];
    assert "--flagfile=" + "a" == "--flagfile=a";
    assert ["--x=2"] + ["--flagfile=" + "a"] + [] == ["--x=2", "--flagfile=a"];
    assert [] + ["--x=2"] == ["--x=2"] && ["--x=2"] + [] == ["--x=2"];
    assert ["--x=1"] + ["--x=2"] == ["--x=1", "--x=2"];
  }

  lemma OrdinaryFlag()
    ensures Ordinary("--x=2", true)
  {
    assert "--x=2"[2] == 'x';
  }

  lemma OneFlag(site: Site)
    requires site.files == map["a" := ["--x=1"]]
    ensures FileLines(site, "a", []) == Ok(Parsed(["--x=1"], ["a"]))
  {
    hide Strip;
    var line := "--x=1";
    assert line[0] == '-' && line[2] == 'x';
    assert Kind(site, line) == Useful(line) by {
      UsefulExactly(site, line);
      StripEnds("", line, "");
      assert "" + line + "" == line;
    }
    var lines := site.files["a"];
    assert lines[0] == line && lines[1..] == [];
    assert [] + ["a"] == ["a"] && [line] + [] == [line];
    assert LinesFrom(site, [], ["a"]) == Ok(Parsed([], ["a"]));
  }

  /** Where nothing stops the scan, no directive is left over. */
  lemma {:induction false} NoDirectiveLeft(site: Site, argv: seq<string>, gnu: bool, parsed: seq<string>)
    requires Scan(site, argv, gnu, parsed).Ok? && forall a | a in argv :: !Stops(a, gnu)
    ensures forall a | a in Scan(site, argv, gnu, parsed).value.kept :: !IsDirective(a)
    decreases |argv|
  {
    hide FileLines, Stops;
    if argv == [] {
    } else if IsDirective(argv[0]) {
      var n := if Bare(argv[0]) then 2 else 1;
      var name := if Bare(argv[0]) then site.expanduser(argv[1]) else ExtractFilename(site, argv[0]).value;
      NoDirectiveLeft(site, argv[n..], gnu, FileLines(site, name, parsed).value.files);
    } else {
      NoDirectiveLeft(site, argv[1..], gnu, parsed);
    }
  }

  lemma NothingCut(argv: seq<string>)
    ensures CutOut(argv, [], argv)
  {
  }

  // ---------- the loops ----------

  class FlagReader {
    const site: Site
    const gnu: bool
    /** `parsed_file_list` */
    var parsed: seq<string>

    constructor (site: Site, gnu: bool)
      ensures this.site == site && this.gnu == gnu && parsed == []
    {
      this.site, this.gnu, parsed := site, gnu, [];
    }

    /** After an error, of the files read only those read before are told. */
    method GetFlagFileLines(name: string) returns (r: Result<seq<string>, Error>)
      modifies this
      ensures old(parsed) <= parsed
      ensures match FileLines(site, name, old(parsed))
              case Ok(p) => r == Ok(p.lines) && parsed == p.files
              case Err(e) => r == Err(e)
      decreases Unread(site, parsed), if name in parsed then 1 else 0
    {
      if name !in site.files { return Ok([]); }
      var lines := site.files[name];
      UnreadShrinks(site, name, parsed);
      ghost var goal := FileLines(site, name, parsed);
      parsed := parsed + [name];
      var found: seq<string> := [];
      PrependNothing(LinesFrom(site, lines, parsed));
      assert lines[0..] == lines && goal == Prepend(found, LinesFrom(site, lines, parsed));
      for i := 0 to |lines|
        invariant goal == Prepend(found, LinesFrom(site, lines[i..], parsed))
        invariant old(parsed) + [name] <= parsed
      {
        assert lines[i..][0] == lines[i] && lines[i..][1..] == lines[i + 1..];
        match Kind(site, lines[i])
        case Ignored =>
        case Useful(text) =>
          PrependMore(found, [text], LinesFrom(site, lines[i + 1..], parsed));
          found := found + [text];
        case Illegal => return Err(IllegalDirective);
        case Include(sub) =>
          if sub !in parsed {
            UnreadLess(site, old(parsed), parsed, name);
            ghost var before := parsed;
            var inner := GetFlagFileLines(sub);
            if inner.Err? { return inner; }
            PrependMore(found, inner.value, LinesFrom(site, lines[i + 1..], parsed));
            assert before <= parsed;
            found := found + inner.value;
          }
      }
      assert lines[|lines|..] == [] && found + [] == found;
      r := Ok(found);
    }

    method ReadFlagsFromFiles(argv: seq<string>) returns (r: Result<seq<string>, Error>)
      modifies this
      ensures r == Expanded(site, argv, gnu)
      ensures ExpandsTo(site, argv, gnu, r)
    {
      hide FileLines, ExpandsTo, Stops, Strip;
      ExpandedAsPromised(site, argv, gnu);
      parsed := [];
      var rest, fileLines: seq<string>, args: seq<string> := argv, [], [];
      ghost var goal := Scan(site, argv, gnu, []);
      JoinNothing(goal);
      while rest != []
        invariant goal == JoinScan(fileLines, args, Scan(site, rest, gnu, parsed))
        decreases |rest|
      {
        var current := rest[0];
        if IsDirective(current) {
          if Bare(current) && |rest| == 1 { return Err(MissingArgument); }
          var name := if Bare(current) then site.expanduser(rest[1]) else ExtractFilename(site, current).value;
          rest := rest[if Bare(current) then 2 else 1..];
          var lines := GetFlagFileLines(name);
          if lines.Err? { return Err(lines.error); }
          JoinLines(fileLines, args, lines.value, Scan(site, rest, gnu, parsed));
          fileLines := lines.value + fileLines;
        } else if Stops(current, gnu) {
          assert [] + fileLines == fileLines;
          return Ok(fileLines + (args + rest));
        } else {
          JoinArg(fileLines, args, current, Scan(site, rest[1..], gnu, parsed));
          args := args + [current];
          rest := rest[1..];
        }
      }
      assert [] + fileLines == fileLines && args + [] == args;
      r := Ok(fileLines + args);
    }
  }

  lemma PrependNothing(r: Result<Parsed, Error>)
    ensures Prepend([], r) == r
  {
    if r.Ok? { assert [] + r.value.lines == r.value.lines; }
  }

  lemma PrependMore(a: seq<string>, b: seq<string>, r: Result<Parsed, Error>)
    ensures Prepend(a, Prepend(b, r)) == Prepend(a + b, r)
  {
    if r.Ok? { assert a + (b + r.value.lines) == a + b + r.value.lines; }
  }

  lemma UnreadLess(site: Site, before: seq<string>, now: seq<string>, name: string)
    requires name in site.files && before + [name] <= now
    ensures Unread(site, now) <= Unread(site, before)
    ensures name !in before ==> Unread(site, now) < Unread(site, before)
  {
    assert forall f | f in before :: f in now by {
      forall f | f in before ensures f in now {
        var i :| 0 <= i < |before| && before[i] == f;
        assert now[i] == (before + [name])[i];
      }
    }
    assert name in now by { assert now[|before|] == (before + [name])[|before|]; }
    if name !in before { assert name in Unread(site, before) && name !in Unread(site, now); }
  }

  /** What has been collected so far, joined with what the rest gives. */
  function JoinScan(lines: seq<string>, args: seq<string>, r: Result<Scanned, Error>): Result<Scanned, Error> {
    match r
    case Ok(q) => Ok(Scanned(q.lines + lines, args + q.kept))
    case Err(e) => Err(e)
  }

  lemma JoinNothing(r: Result<Scanned, Error>)
    ensures JoinScan([], [], r) == r
  {
    if r.Ok? { assert r.value.lines + [] == r.value.lines && [] + r.value.kept == r.value.kept; }
  }

  lemma JoinLines(lines: seq<string>, args: seq<string>, more: seq<string>, r: Result<Scanned, Error>)
    ensures r.Ok? ==>
              JoinScan(lines, args, Ok(Scanned(r.value.lines + more, r.value.kept))) == JoinScan(more + lines, args, r)
  {
    if r.Ok? { assert (r.value.lines + more) + lines == r.value.lines + (more + lines); }
  }

  lemma JoinArg(lines: seq<string>, args: seq<string>, arg: string, r: Result<Scanned, Error>)
    ensures r.Ok? ==>
              JoinScan(lines, args, Ok(r.value.(kept := [arg] + r.value.kept))) == JoinScan(lines, args + [arg], r)
  {
    if r.Ok? { assert args + ([arg] + r.value.kept) == (args + [arg]) + r.value.kept; }
  }
}
