/**
  The text handling inside the test-generation flow (`unittest_flow`, `correct_function`,
  `extract_failed_test_cases`): counting plan bullets, deciding on elaboration, deriving
  the import line, extracting the first fenced code block, patching in `import sys`,
  regenerating on syntax errors, and pairing failed cases with their messages.

  The language-model service is not modelled: each of its replies is an input string.
  Parsing with `ast.parse` is an input predicate `parses`; regular-expression matching is
  an input function from text to the list of matches.
*/
module Synthesis {
  import opened Wrappers
  import opened PyStr
  import Disk

  /** The opening marker of a Python code block in a reply. */
  const PyFence: string := "```python"
  /** Any fence marker; the first one after the opening marker closes the block. */
  const Fence: string := "```"

  /** The exceptions the text handling lets escape. */
  datatype Error = IndexError

  // ---------------------------------------------------------------------------
  // Planning: bullet count and elaboration

  /** `max(plan.count("\n-"), plan.count("\n*"))`. */
  function BulletCount(plan: string): nat
  {
    var dash := Count(plan, "\n-");
    var star := Count(plan, "\n*");
    if dash >= star then dash else star
  }

  /** Reference count: the lines after the first one whose first character is `c`. */
  function LinesStartingWith(s: string, c: char): nat
  {
    if |s| < 2 then 0
    else (if s[0] == '\n' && s[1] == c then 1 else 0) + LinesStartingWith(s[1..], c)
  }

  /** Counting "\n" + c without overlap counts exactly the lines (other than the first)
      that start with `c`: the pattern cannot overlap itself. */
  lemma {:induction false} CountIsLineCount(s: string, c: char)
    requires c != '\n'
    ensures Count(s, ['\n', c]) == LinesStartingWith(s, c)
    decreases |s|
  {
    var t := ['\n', c];
    if s == [] {
    } else if t <= s {
      CountIsLineCount(s[2..], c);
      assert s[1..][1..] == s[2..];
    } else {
      CountIsLineCount(s[1..], c);
      if |s| >= 2 { assert s[..2] == [s[0], s[1]]; }
    }
  }

  /** The bullet count is the larger of the numbers of lines (after the first) starting
      with '-' and with '*'; a first line that starts with a bullet is not counted. */
  lemma BulletCountIsLineCount(plan: string)
    ensures var dash := LinesStartingWith(plan, '-');
      var star := LinesStartingWith(plan, '*');
      BulletCount(plan) == if dash >= star then dash else star
  {
    assert "\n-" == ['\n', '-'];
    assert "\n*" == ['\n', '*'];
    CountIsLineCount(plan, '-');
    CountIsLineCount(plan, '*');
  }

  /** `elaboration_needed = num_bullets < approx_min_cases_to_cover`. */
  predicate ElaborationNeeded(plan: string, approxMinCasesToCover: int)
  {
    BulletCount(plan) < approxMinCasesToCover
  }

  /** The "maximum of N" written into the elaboration prompt, as the source computes it:
      `num_bullets - approx_min_cases_to_cover`. */
  function ElaborationBoundAsWritten(plan: string, approxMinCasesToCover: int): int
  {
    BulletCount(plan) - approxMinCasesToCover
  }

  /** Whenever elaboration is requested, the bound written into the prompt is negative. */
  lemma AsWrittenBoundIsNegative(plan: string, approxMinCasesToCover: int)
    requires ElaborationNeeded(plan, approxMinCasesToCover)
    ensures ElaborationBoundAsWritten(plan, approxMinCasesToCover) < 0
  {
  }

  /** A plan with one bullet after its first line and the default minimum of seven asks
      for "a maximum of -6" further cases. */
  lemma AsWrittenBoundExample(plan: string)
    requires plan == "Cases:\n- a"
    ensures ElaborationNeeded(plan, 7)
    ensures ElaborationBoundAsWritten(plan, 7) == -6
  {
    BulletCountIsLineCount(plan);
    LinesBeforeNewline(plan, 6, '-');
    LinesBeforeNewline(plan, 6, '*');
    var u := plan[6..];
    assert u[0] == '\n' && u[1] == '-' && u[1..][0] == '-' && u[2..][0] == ' ' && |u[2..]| == 2;
    LinesBeforeNewline(u[1..], 2, '-');
    LinesBeforeNewline(u[1..], 2, '*');
    assert u[1..][2..] == u[3..] && |u[3..]| == 1;
  }

  /** Characters before the first line break do not start a counted line. */
  lemma {:induction false} LinesBeforeNewline(s: string, k: nat, c: char)
    requires k <= |s| && forall j :: 0 <= j < k ==> s[j] != '\n'
    ensures LinesStartingWith(s, c) == LinesStartingWith(s[k..], c)
    decreases k
  {
    if k > 0 && |s| >= 2 {
      LinesBeforeNewline(s[1..], k - 1, c);
      assert s[1..][k - 1..] == s[k..];
    }
  }

  /** The intended bound: the number of cases still missing, which is at least one
      whenever elaboration is requested and never more than the minimum itself. */
  function ElaborationBound(plan: string, approxMinCasesToCover: int): (n: int)
    requires ElaborationNeeded(plan, approxMinCasesToCover)
    ensures 1 <= n <= approxMinCasesToCover
    ensures BulletCount(plan) + n == approxMinCasesToCover
  {
    approxMinCasesToCover - BulletCount(plan)
  }

  // ---------------------------------------------------------------------------
  // The import line of the test module

  /** `function_filename.split('/')[-1].replace('.py', '')`. */
  function ModuleName(functionFilename: string): string
  {
    Replace(LastPiece(functionFilename, "/"), ".py", "")
  }

  /** `s.split(sep)[-1]`: what follows the last separator (`LastPieceOfSplit`). */
  function LastPiece(s: string, sep: string): string
    requires sep != []
    decreases |s|
  {
    match Find(s, sep)
    case None => s
    case Some(i) => LastPiece(s[i + |sep|..], sep)
  }

  /** `function_to_test.split('(')[0].strip()`. */
  function SymbolName(functionToTest: string): (name: string)
    ensures !Contains(name, "(")
  {
    SplitPiecesFree(functionToTest, "(");
    var head := Split(functionToTest, "(")[0];
    StripKeepsAbsence(head, "(");
    Strip(head)
  }

  /** The line `from src.<module> import <symbol>` the generated tests must start with. */
  function ImportLine(functionFilename: string, functionToTest: string): string
  {
    "from src." + ModuleName(functionFilename) + " import " + SymbolName(functionToTest)
  }

  /** The last piece of a split on a one-character separator ignores everything up to
      the last separator. */
  lemma {:induction false} LastPieceAfterSeparator(a: string, c: char, b: string)
    ensures LastPiece(a + [c] + b, [c]) == LastPiece(b, [c])
    decreases |a|
  {
    var sep := [c];
    var tail := sep + b;
    var s := a + tail;
    assert a + sep + b == s;
    assert OccursAt(s, sep, |a|) by { assert s[|a|..|a| + 1] == sep; }
    FindFirst(s, sep, |a|);
    var i := Find(s, sep).value;
    if i < |a| {
      DropFromConcat(a, tail, i + 1);
      assert a[i + 1..] + tail == a[i + 1..] + sep + b;
      LastPieceAfterSeparator(a[i + 1..], c, b);
    } else {
      assert s[i + 1..] == b;
    }
  }

  /** `LastPiece` is the last element of the list `split` returns. */
  lemma {:induction false} LastPieceOfSplit(s: string, sep: string)
    requires sep != []
    ensures var p := Split(s, sep); LastPiece(s, sep) == p[|p| - 1]
    decreases |s|
  {
    match Find(s, sep)
    case None =>
      assert Split(s, sep) == [s];
    case Some(i) =>
      var rest := s[i + |sep|..];
      var q := Split(rest, sep);
      assert LastPiece(s, sep) == LastPiece(rest, sep);
      LastPieceOfSplit(rest, sep);
      SplitUnfold(s, sep, i);
      LastOfCons(s[..i], q, Split(s, sep));
  }

  lemma LastOfCons(x: string, q: seq<string>, p: seq<string>)
    requires |q| >= 1 && p == [x] + q
    ensures p[|p| - 1] == q[|q| - 1]
  {
  }

  lemma BorderFreePy()
    ensures BorderFree(".py")
  {
    var t := ".py";
    forall k | 0 < k < |t| ensures t[..k] != t[|t| - k..] {
      assert t[..k][0] == '.';
      assert t[|t| - k..][0] != '.';
    }
  }

  lemma NoSlashInSuffix(stem: string)
    requires !Contains(stem, "/")
    ensures !Contains(stem + ".py", "/")
  {
    var s := stem + ".py";
    if Contains(s, "/") {
      var j := Find(s, "/").value;
      assert s[j] == '/' by { assert s[j..j + 1][0] == s[j]; }
      if j < |stem| {
        assert stem[j..j + 1] == "/";
        ContainsWitness(stem, "/", j);
      }
    }
  }

  /** Dropping ".py" from `stem.py` leaves the stem when the stem holds no ".py". */
  lemma DropPySuffix(stem: string)
    requires !Contains(stem, ".py")
    ensures Replace(stem + ".py", ".py", "") == stem
  {
    BorderFreePy();
    DropOnlyOccurrence(stem, ".py");
  }

  /** For a bare `stem.py` whose stem holds neither '/' nor ".py", the module name is
      the stem. */
  lemma ModuleNameOfFile(stem: string)
    requires !Contains(stem, "/") && !Contains(stem, ".py")
    ensures Split(stem + ".py", "/") == [stem + ".py"]
    ensures ModuleName(stem + ".py") == stem
  {
    NoSlashInSuffix(stem);
    DropPySuffix(stem);
  }

  /** For a path `dir/stem.py` whose stem holds neither '/' nor ".py", the module name
      is the stem. */
  lemma ModuleNameOfPath(dir: string, stem: string)
    requires !Contains(stem, "/") && !Contains(stem, ".py")
    ensures ModuleName(dir + "/" + stem + ".py") == stem
  {
    var file := stem + ".py";
    ModuleNameOfFile(stem);
    var path := dir + "/" + stem + ".py";
    assert path == dir + ['/'] + file;
    LastPieceAfterSeparator(dir, '/', file);
  }

  /** The path `read_class_or_method` returns, `os.path.join(dir, "stem.py")`, names the
      module `stem` whatever the directory, so the generated tests import from the file
      that was read. */
  lemma ModuleNameOfJoin(dir: string, stem: string)
    requires !Contains(stem, "/") && !Contains(stem, ".py")
    ensures ModuleName(Disk.PathJoin(dir, stem + ".py")) == stem
  {
    var file := stem + ".py";
    assert file[0] != '/';
    if dir == [] {
      assert Disk.PathJoin(dir, file) == file;
      ModuleNameOfFile(stem);
    } else if dir[|dir| - 1] == '/' {
      var d := dir[..|dir| - 1];
      assert dir == d + "/";
      assert Disk.PathJoin(dir, file) == d + "/" + stem + ".py";
      ModuleNameOfPath(d, stem);
    } else {
      assert Disk.PathJoin(dir, file) == dir + "/" + stem + ".py";
      ModuleNameOfPath(dir, stem);
    }
  }

  /** For a call-shaped text `name(args...` with no '(' in `name`, the symbol is the
      stripped name. */
  lemma SymbolNameOfCall(name: string, rest: string)
    requires !Contains(name, "(")
    ensures SymbolName(name + "(" + rest) == Strip(name)
  {
    assert "("[..0] == "" && name + "" == name;
    SplitFirstPiece(name, "(", rest);
    StripKeepsAbsence(name, "(");
  }

  /** The import line for `dir/stem.py` and `name(...)`. */
  lemma ImportLineOf(dir: string, stem: string, name: string, rest: string)
    requires !Contains(stem, "/") && !Contains(stem, ".py") && !Contains(name, "(")
    ensures ImportLine(dir + "/" + stem + ".py", name + "(" + rest)
         == "from src." + stem + " import " + Strip(name)
  {
    ModuleNameOfPath(dir, stem);
    SymbolNameOfCall(name, rest);
  }

  // ---------------------------------------------------------------------------
  // Extracting the first fenced code block

  /** `reply.split("```python")[1].split("```")[0].strip()`; the `[1]` raises IndexError
      when the reply has no opening marker. */
  function ExtractFence(reply: string): (r: Result<string, Error>)
    ensures r.Err? <==> !Contains(reply, PyFence)
  {
    var pieces := Split(reply, PyFence);
    if |pieces| < 2 then Err(IndexError) else Ok(Strip(Split(pieces[1], Fence)[0]))
  }

  /** An extracted block holds no fence and has nothing left to strip. */
  lemma ExtractedBlockIsClean(reply: string)
    ensures ExtractFence(reply).Ok? ==> !Contains(ExtractFence(reply).value, Fence)
    ensures ExtractFence(reply).Ok? ==> Strip(ExtractFence(reply).value) == ExtractFence(reply).value
  {
    if ExtractFence(reply).Err? { return; }
    var pieces := Split(reply, PyFence);
    var block := Split(pieces[1], Fence)[0];
    SplitPiecesFree(pieces[1], Fence);
    StripIdempotent(block);
    StripKeepsAbsence(block, Fence);
  }

  lemma BorderFreePyFence()
    ensures BorderFree(PyFence)
  {
    forall k | 0 < k < |PyFence| ensures PyFence[..k] != PyFence[|PyFence| - k..] {
      assert PyFence[|PyFence| - k..][k - 1] == 'n';
    }
  }

  /** An occurrence of a pattern that starts with a backtick starts at a backtick. */
  lemma OccurrenceStartsWithTick(s: string, t: string, j: int)
    requires t != [] && t[0] == '`' && OccursAt(s, t, j)
    ensures j < |s| && s[j] == '`'
  {
    assert s[j..j + |t|][0] == s[j];
  }

  /** Without a backtick in `x`, no fence occurs in `x` + "``", nor in `x` itself. */
  lemma NoFenceAfterTickFree(x: string)
    requires !Contains(x, "`")
    ensures !Contains(x + "``", Fence) && !Contains(x, Fence)
  {
    var s := x + "``";
    if Contains(s, Fence) {
      var j := Find(s, Fence).value;
      OccurrenceStartsWithTick(s, Fence, j);
      assert x[j..j + 1] == "`";
      ContainsWitness(x, "`", j);
    }
    if Contains(x, Fence) {
      ContainsConcat(x, "``", Fence);
    }
  }

  /** In `body` + "```" + `post`, an opening marker can only start at the closing fence
      itself or inside `post`. */
  lemma OpeningPositions(body: string, post: string, i: int)
    requires !Contains(body, "`") && (post == [] || post[0] != '`')
    requires OccursAt(body + Fence + post, PyFence, i)
    ensures i == |body| || i >= |body| + 3
  {
    var rest := body + Fence + post;
    OccurrenceStartsWithTick(rest, PyFence, i);
    if i < |body| {
      assert body[i..i + 1] == "`";
      ContainsWitness(body, "`", i);
    } else if i == |body| + 1 || i == |body| + 2 {
      TickInOpening(rest, i, |body| + 3 - i);
      assert false;
    }
  }

  /** The first three characters of an opening marker are backticks. */
  lemma TickInOpening(s: string, i: int, k: int)
    requires OccursAt(s, PyFence, i) && 0 <= k < 3
    ensures i + k < |s| && s[i + k] == '`'
  {
    assert s[i..i + |PyFence|][k] == s[i + k];
  }

  /** After an opening marker preceded by none, the second piece of the split is the
      first piece of what follows the marker. */
  lemma SecondPieceAfterOpening(pre: string, rest: string)
    requires !Contains(pre, PyFence)
    ensures var pieces := Split(pre + PyFence + rest, PyFence);
      |pieces| >= 2 && pieces[1] == Split(rest, PyFence)[0]
  {
    BorderFreePyFence();
    NoStraddle(pre, PyFence);
    SplitFirstPiece(pre, PyFence, rest);
  }

  /** What follows the opening marker, cut at the next opening marker and then at the
      first fence, is the body. */
  lemma BodyBeforeClosingFence(body: string, post: string)
    requires !Contains(body, "`") && (post == [] || post[0] != '`')
    ensures Split(Split(body + Fence + post, PyFence)[0], Fence)[0] == body
  {
    var rest := body + Fence + post;
    var block := Split(rest, PyFence)[0];
    NoFenceAfterTickFree(body);
    match Find(rest, PyFence)
    case Some(i) =>
      OpeningPositions(body, post, i);
      assert block == rest[..i];
      if i == |body| {
        assert block == body;
      } else {
        assert block == body + Fence + post[..i - |body| - 3];
        assert Fence[..|Fence| - 1] == "``";
        SplitFirstPiece(body, Fence, post[..i - |body| - 3]);
      }
    case None =>
      assert block == rest;
      assert Fence[..|Fence| - 1] == "``";
      SplitFirstPiece(body, Fence, post);
  }

  /** A reply `pre` + "```python" + `body` + "```" + `post`, where `pre` has no opening
      marker, `body` no backtick and `post` does not start with one, yields the stripped
      body. */
  lemma ExtractFenceOfReply(pre: string, body: string, post: string)
    requires !Contains(pre, PyFence) && !Contains(body, "`")
    requires post == [] || post[0] != '`'
    ensures ExtractFence(pre + PyFence + body + Fence + post) == Ok(Strip(body))
  {
    var rest := body + Fence + post;
    assert pre + PyFence + body + Fence + post == pre + PyFence + rest;
    SecondPieceAfterOpening(pre, rest);
    BodyBeforeClosingFence(body, post);
  }

  /** A tick-free text followed by one backtick holds no fence. */
  lemma OneTickNoFence(body: string, t: string)
    requires !Contains(body, "`") && |t| >= 2 && t[0] == '`'
    ensures !Contains(body + "`", t)
  {
    var x := body + "`";
    if Contains(x, t) {
      var j := Find(x, t).value;
      OccurrenceStartsWithTick(x, t, j);
      assert x[j..j + 1] == "`";
      ContainsWitness(body, "`", j);
    }
  }

  /** Stripping keeps a final backtick. */
  lemma StripKeepsFinalTick(x: string)
    requires x != [] && x[|x| - 1] == '`'
    ensures Contains(Strip(x), "`")
  {
    var r := Strip(x);
    StripSlice(x);
    assert r != [] && r[|r| - 1] == '`';
    assert r[|r| - 1..] == "`";
    ContainsWitness(r, "`", |r| - 1);
  }

  /** The condition on `post` in `ExtractFenceOfReply` is needed: when a backtick follows
      the closing fence, a second opening marker starts inside that fence and cuts the
      block there, so the extracted text keeps a stray backtick and differs from the
      stripped body. */
  lemma TickAfterClosingFence(body: string)
    requires !Contains(body, "`")
    ensures var r := ExtractFence(PyFence + body + Fence + "`python");
      r.Ok? && r.value == Strip(body + "`") && r.value != Strip(body)
  {
    var x := body + "`";
    var rest := x + PyFence;
    assert PyFence + body + Fence + "`python" == [] + PyFence + rest;
    SecondPieceAfterOpening([], rest);
    OneTickNoFence(body, PyFence);
    OneTickNoFence(body, Fence);
    BorderFreePyFence();
    NoStraddle(x, PyFence);
    assert rest == x + PyFence + [];
    SplitFirstPiece(x, PyFence, []);
    assert Split(x, Fence) == [x];
    StripKeepsFinalTick(x);
    StripKeepsAbsence(body, "`");
  }

  // ---------------------------------------------------------------------------
  // Patching in `import sys`

  /** `if "sys" in code and "import sys" not in code: code = "import sys\n" + code`. */
  function PatchSys(code: string): (r: string)
    ensures r == code || r == "import sys\n" + code
  {
    if Contains(code, "sys") && !Contains(code, "import sys") then "import sys\n" + code
    else code
  }

  lemma StartsWithImportSys(code: string)
    ensures Contains("import sys\n" + code, "import sys")
  {
    assert ("import sys\n" + code)[..10] == "import sys";
    ContainsWitness("import sys\n" + code, "import sys", 0);
  }

  /** After the patch, any code mentioning "sys" also contains "import sys". */
  lemma PatchSysImports(code: string)
    ensures Contains(PatchSys(code), "sys") ==> Contains(PatchSys(code), "import sys")
  {
    if PatchSys(code) != code { StartsWithImportSys(code); }
  }

  /** Patching twice is patching once. */
  lemma PatchSysIdempotent(code: string)
    ensures PatchSys(PatchSys(code)) == PatchSys(code)
  {
    if PatchSys(code) != code { StartsWithImportSys(code); }
  }

  // ---------------------------------------------------------------------------
  // Regenerating on syntax errors

  /** The outcome of one call of `unittest_flow`, with the number of the round after
      the last one it used (rounds are numbered from the first call's `attempt`). */
  datatype Generation =
    | Written(code: string, rounds: nat)
    | Raised(error: Error, rounds: nat)

  /** What one round makes of the service's reply: the extracted block, patched for
      `import sys` in the drafts that do so, or the IndexError of a missing fence. */
  function PrepareReply(reply: string, patchSys: bool): (r: Result<string, Error>)
    ensures r.Err? <==> !Contains(reply, PyFence)
  {
    match ExtractFence(reply)
    case Err(e) => Err(e)
    case Ok(code) => Ok(if patchSys then PatchSys(code) else code)
  }

  /** How many extra rounds `reruns_if_fail` allows. */
  function Reruns(rerunsIfFail: int): nat
  {
    if rerunsIfFail > 0 then rerunsIfFail else 0
  }

  /** The rerun recursion of `unittest_flow` from the round `attempt` on, for any way
      `prepare` of turning a reply into code: an error raises at once; code that does not
      parse recurses with `reruns_if_fail - 1` while that is positive; otherwise the code
      is written, whether it parses or not. */
  function Regenerate(prepare: string -> Result<string, Error>, replies: nat -> string,
                      parses: string -> bool, rerunsIfFail: int, attempt: nat): (g: Generation)
    ensures attempt < g.rounds <= attempt + 1 + Reruns(rerunsIfFail)
    decreases Reruns(rerunsIfFail)
  {
    match prepare(replies(attempt))
    case Err(e) => Raised(e, attempt + 1)
    case Ok(code) =>
      if !parses(code) && rerunsIfFail > 0 then
        Regenerate(prepare, replies, parses, rerunsIfFail - 1, attempt + 1)
      else
        Written(code, attempt + 1)
  }

  /** Every round before the last one produced code that does not parse; the last one
      either failed to produce code (and the call raised) or produced the written code,
      which parses unless the reruns were used up. */
  lemma {:induction false} RegenerateOutcome(prepare: string -> Result<string, Error>, replies: nat -> string,
                                             parses: string -> bool, rerunsIfFail: int, attempt: nat)
    ensures var g := Regenerate(prepare, replies, parses, rerunsIfFail, attempt);
      && (forall k: nat :: attempt <= k < g.rounds - 1 ==>
            prepare(replies(k)).Ok? && !parses(prepare(replies(k)).value))
      && (g.Raised? <==> prepare(replies(g.rounds - 1)).Err?)
      && (g.Raised? ==> g.error == prepare(replies(g.rounds - 1)).error)
      && (g.Written? ==> g.code == prepare(replies(g.rounds - 1)).value)
      && (g.Written? ==> parses(g.code) || g.rounds == attempt + 1 + Reruns(rerunsIfFail))
    decreases Reruns(rerunsIfFail)
  {
    match prepare(replies(attempt))
    case Err(e) =>
    case Ok(code) =>
      if !parses(code) && rerunsIfFail > 0 {
        RegenerateOutcome(prepare, replies, parses, rerunsIfFail - 1, attempt + 1);
      }
  }

  /** `unittest_flow(..., reruns_if_fail)` on the reply stream `replies`: round `k` uses
      `replies(k)`, and `parses` stands for `ast.parse` succeeding. */
  function GenerateTests(replies: nat -> string, parses: string -> bool, patchSys: bool,
                         rerunsIfFail: int): (g: Generation)
    ensures 0 < g.rounds <= 1 + Reruns(rerunsIfFail)
  {
    Regenerate(reply => PrepareReply(reply, patchSys), replies, parses, rerunsIfFail, 0)
  }

  /** The call raises exactly when the last reply it read had no fence; every earlier
      reply had a fence around code that does not parse; written code comes from the last
      reply and parses unless every rerun was used. */
  lemma GenerateTestsOutcome(replies: nat -> string, parses: string -> bool, patchSys: bool, rerunsIfFail: int)
    ensures var g := GenerateTests(replies, parses, patchSys, rerunsIfFail);
      && (forall k: nat :: k < g.rounds - 1 ==>
            Contains(replies(k), PyFence) && !parses(PrepareReply(replies(k), patchSys).value))
      && (g.Raised? <==> !Contains(replies(g.rounds - 1), PyFence))
      && (g.Written? ==> Ok(g.code) == PrepareReply(replies(g.rounds - 1), patchSys))
      && (g.Written? ==> parses(g.code) || g.rounds == 1 + Reruns(rerunsIfFail))
  {
    var prepare := reply => PrepareReply(reply, patchSys);
    RegenerateOutcome(prepare, replies, parses, rerunsIfFail, 0);
    var g := Regenerate(prepare, replies, parses, rerunsIfFail, 0);
    assert g == GenerateTests(replies, parses, patchSys, rerunsIfFail);
    forall k: nat | k < g.rounds - 1
      ensures Contains(replies(k), PyFence) && !parses(PrepareReply(replies(k), patchSys).value)
    {
      assert prepare(replies(k)) == PrepareReply(replies(k), patchSys);
    }
    assert prepare(replies(g.rounds - 1)) == PrepareReply(replies(g.rounds - 1), patchSys);
  }

  /** A first reply with a fence around parsable code is written at once. */
  lemma GenerateTestsFirstTry(replies: nat -> string, parses: string -> bool, patchSys: bool, rerunsIfFail: int)
    requires PrepareReply(replies(0), patchSys).Ok? && parses(PrepareReply(replies(0), patchSys).value)
    ensures GenerateTests(replies, parses, patchSys, rerunsIfFail) == Written(PrepareReply(replies(0), patchSys).value, 1)
  {
  }

  /** Written test code never contains a fence in the draft that does not patch it, and
      in the draft that does, code that mentions "sys" imports it. */
  lemma WrittenCodeIsClean(replies: nat -> string, parses: string -> bool, patchSys: bool, rerunsIfFail: int)
    requires GenerateTests(replies, parses, patchSys, rerunsIfFail).Written?
    ensures var code := GenerateTests(replies, parses, patchSys, rerunsIfFail).code;
      && (patchSys ==> (Contains(code, "sys") ==> Contains(code, "import sys")))
      && (!patchSys ==> !Contains(code, Fence))
  {
    GenerateTestsOutcome(replies, parses, patchSys, rerunsIfFail);
    var g := GenerateTests(replies, parses, patchSys, rerunsIfFail);
    var extracted := ExtractFence(replies(g.rounds - 1)).value;
    if patchSys { PatchSysImports(extracted); } else { ExtractedBlockIsClean(replies(g.rounds - 1)); }
  }

  /** `unittest_flow` with its one side effect: the final code is written to the test
      module, and nothing is written when extraction raises. */
  method UnittestFlow(disk: Disk.FileStore, replies: nat -> string, parses: string -> bool,
                      patchSys: bool, rerunsIfFail: int)
    returns (r: Result<string, Error>)
    modifies disk
    ensures var g := GenerateTests(replies, parses, patchSys, rerunsIfFail);
      match g
      case Written(code, _) => r == Ok(Disk.TestModulePath) && disk.files == old(disk.files)[Disk.TestModulePath := code]
      case Raised(e, _) => r == Err(e) && disk.files == old(disk.files)
  {
    var g := GenerateTests(replies, parses, patchSys, rerunsIfFail);
    match g
    case Written(code, _) =>
      disk.Write(Disk.TestModulePath, code);
      r := Ok(Disk.TestModulePath);
    case Raised(e, _) =>
      r := Err(e);
  }

  // ---------------------------------------------------------------------------
  // Correcting the function

  /** `correct_function` with the fallback: the extracted block, or the original text
      when the reply has no Python fence. */
  function CorrectedFunction(functionToTest: string, reply: string): (r: string)
    ensures !Contains(reply, PyFence) ==> r == functionToTest
    ensures Contains(reply, PyFence) ==> !Contains(r, Fence) && Ok(r) == ExtractFence(reply)
  {
    ExtractedBlockIsClean(reply);
    match ExtractFence(reply)
    case Ok(code) => code
    case Err(_) => functionToTest
  }

  /** `correct_function` with its write: the result replaces the file at
      `os.path.join(cwd, "src", function_filename)`. */
  method CorrectFunction(disk: Disk.FileStore, functionToTest: string, functionFilename: string, reply: string)
    returns (corrected: string, path: string)
    modifies disk
    ensures corrected == CorrectedFunction(functionToTest, reply)
    ensures path == Disk.PathJoin("src", functionFilename)
    ensures disk.files == old(disk.files)[path := corrected]
  {
    corrected := CorrectedFunction(functionToTest, reply);
    path := Disk.PathJoin("src", functionFilename);
    disk.Write(path, corrected);
  }

  /** The draft of `correct_function` without a fallback: a reply without a fence raises
      IndexError before anything is written. */
  method CorrectFunctionStrict(disk: Disk.FileStore, functionFilename: string, reply: string)
    returns (r: Result<(string, string), Error>)
    modifies disk
    ensures r.Err? <==> !Contains(reply, PyFence)
    ensures r.Err? ==> disk.files == old(disk.files)
    ensures r.Ok? ==>
      && r.value.0 == ExtractFence(reply).value
      && r.value.1 == Disk.PathJoin("src", functionFilename)
      && disk.files == old(disk.files)[r.value.1 := r.value.0]
  {
    var extracted := ExtractFence(reply);
    if extracted.Err? {
      return Err(extracted.error);
    }
    var path := Disk.PathJoin("src", functionFilename);
    disk.Write(path, extracted.value);
    r := Ok((extracted.value, path));
  }

  /** The two drafts agree on every reply that has a fence; on the others one raises and
      the other keeps the original. */
  lemma FallbackAgreesWithStrict(functionToTest: string, reply: string)
    ensures ExtractFence(reply).Ok? ==> CorrectedFunction(functionToTest, reply) == ExtractFence(reply).value
    ensures ExtractFence(reply).Err? ==> CorrectedFunction(functionToTest, reply) == functionToTest
  {
  }

  // ---------------------------------------------------------------------------
  // Failed test cases

  /** `f"Test case: {case.strip()}\nError: {error.strip()}"`: every entry is labelled. */
  function FailureEntry(testCase: string, error: string): (e: string)
    ensures "Test case: " <= e
  {
    var tag := "Test case: ";
    var tail := Strip(testCase) + "\nError: " + Strip(error);
    var entry := tag + tail;
    assert entry[..|tag|] == tag;
    entry
  }

  /** The list comprehension over `zip(failed_cases, error_messages)`: one entry per pair,
      as many as the shorter list has. */
  function PairFailures(cases: seq<string>, errors: seq<string>): (r: seq<string>)
    ensures |r| == if |cases| <= |errors| then |cases| else |errors|
  {
    var n := if |cases| <= |errors| then |cases| else |errors|;
    seq(n, k requires 0 <= k < n => FailureEntry(cases[k], errors[k]))
  }

  /** `extract_failed_test_cases`: `stdout` is None when the result has no "stdout" key,
      the KeyError that the `except Exception` turns into `[]`; `findCases` and
      `findErrors` stand for the two `re.findall` calls. */
  function ExtractFailedTestCases(stdout: Option<string>, findCases: string -> seq<string>,
                                  findErrors: string -> seq<string>): (r: seq<string>)
    ensures stdout.None? ==> r == []
    ensures stdout.Some? ==>
      var cases := findCases(stdout.value);
      var errors := findErrors(stdout.value);
      && |r| == (if |cases| <= |errors| then |cases| else |errors|)
      && forall k :: 0 <= k < |r| ==> r[k] == FailureEntry(cases[k], errors[k])
  {
    match stdout
    case None => []
    case Some(out) => PairFailures(findCases(out), findErrors(out))
  }

  // ---------------------------------------------------------------------------
  // Conversation turns and streamed replies

  datatype Role = System | User | Assistant

  datatype Turn = Turn(role: Role, content: string)

  /** One streamed chunk: it carries a role, a piece of content, or neither. */
  datatype Delta = RoleDelta(role: Role) | ContentDelta(content: string) | EmptyDelta

  /** The text one chunk contributes. */
  function Piece(d: Delta): string
  {
    if d.ContentDelta? then d.content else ""
  }

  /** The text a stream delivers: its content pieces in order. */
  function StreamText(chunks: seq<Delta>): string
  {
    if chunks == [] then "" else Piece(chunks[0]) + StreamText(chunks[1..])
  }

  lemma {:induction false} StreamTextSnoc(chunks: seq<Delta>, d: Delta)
    ensures StreamText(chunks + [d]) == StreamText(chunks) + Piece(d)
  {
    if chunks == [] {
      assert chunks + [d] == [d];
      assert [d][1..] == [];
    } else {
      var s := chunks + [d];
      assert s[0] == chunks[0];
      assert s[1..] == chunks[1..] + [d];
      StreamTextSnoc(chunks[1..], d);
      calc {
        StreamText(s);
        Piece(chunks[0]) + StreamText(chunks[1..] + [d]);
        Piece(chunks[0]) + (StreamText(chunks[1..]) + Piece(d));
        (Piece(chunks[0]) + StreamText(chunks[1..])) + Piece(d);
      }
    }
  }

  /** The streaming loop `for chunk in response: if "content" in delta: text += ...`, on a
      stream of chunks. Every request of `unittest_flow` passes a literal
      `stream=False`, so the response it iterates over when its own `stream` flag is set
      is a complete reply rather than such a stream; this loop is what the branch
      would do had the request asked for one. */
  method CollectStream(chunks: seq<Delta>) returns (text: string)
    ensures text == StreamText(chunks)
  {
    text := "";
    for i := 0 to |chunks|
      invariant text == StreamText(chunks[..i])
    {
      StreamTextSnoc(chunks[..i], chunks[i]);
      assert chunks[..i + 1] == chunks[..i] + [chunks[i]];
      if chunks[i].ContentDelta? {
        text := text + chunks[i].content;
      }
      assert text == StreamText(chunks[..i]) + Piece(chunks[i]);
    }
    assert chunks[..|chunks|] == chunks;
  }

  /** The messages sent for test-code generation: the execute system message, the
      explanation and plan exchanges, the elaboration exchange when there was one, and
      the execute user message. */
  method ExecuteMessages(executeSystem: string, explainUser: string, explanation: string,
                         planUser: string, plan: string, elaboration: Option<(string, string)>,
                         executeUser: string)
    returns (messages: seq<Turn>)
    ensures |messages| == if elaboration.Some? then 8 else 6
    ensures messages[0] == Turn(System, executeSystem)
    ensures messages[..5] == [Turn(System, executeSystem), Turn(User, explainUser), Turn(Assistant, explanation),
                              Turn(User, planUser), Turn(Assistant, plan)]
    ensures messages[|messages| - 1] == Turn(User, executeUser)
    ensures forall k :: 1 <= k < |messages| ==>
      messages[k].role == if k % 2 == 1 then User else Assistant
    ensures elaboration.Some? ==>
      messages[5] == Turn(User, elaboration.value.0) && messages[6] == Turn(Assistant, elaboration.value.1)
  {
    messages := [
      Turn(System, executeSystem),
      Turn(User, explainUser),
      Turn(Assistant, explanation),
      Turn(User, planUser),
      Turn(Assistant, plan)
    ];
    if elaboration.Some? {
      messages := messages + [Turn(User, elaboration.value.0), Turn(Assistant, elaboration.value.1)];
    }
    messages := messages + [Turn(User, executeUser)];
  }
}
