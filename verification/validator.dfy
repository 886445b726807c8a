/**
  The validation pass and the program's top level. For every mock the
  original file is found and read; every line of it that mentions the
  generator is rewritten into an invocation writing to a scratch path, the
  generator is run, and the committed mock is compared with the fresh output
  by digest. Every problem is recorded in the error log and the pass moves on.

  Everything outside the program — reading files, running the generator,
  hashing — is supplied by an `Environment`.
 */
module Validator {
  import opened Wrappers
  import opened Strings
  import opened ErrorLog
  import opened Command
  import opened Scanner
  import opened Pairing

  /** A content digest; only compared for equality. */
  type Digest = seq<bv8>

  /**
    The world the validator observes. `Option` results give the reason an
    operation failed, `None` meaning it succeeded. The generator is taken to
    be deterministic, so what it writes depends only on the invocation.
   */
  datatype Environment = Environment(
    openOriginal: string -> Result<seq<string>>,   // path of an original file -> its lines
    runGenerator: Invocation -> Option<string>,    // launching and waiting for the generator
    openMock: string -> Option<string>,            // opening a committed mock by path
    openGenerated: Invocation -> Option<string>,   // opening the scratch file the invocation wrote
    hashMock: string -> Result<Digest>,            // digest of a committed mock
    hashGenerated: Invocation -> Result<Digest>)   // digest of the scratch file the invocation wrote

  /** A line holding this word is taken to be a generation command. */
  const GenerateMarker: string := "mockgen"

  /** Fresh output for an original file goes here. */
  const ScratchDir: string := "./scripts/temp/"

  function ScratchPath(originalName: string): string
  {
    ScratchDir + originalName
  }

  function OpenFailed(newFilePath: string): string
  {
    "Failed to open generated mock file " + newFilePath
  }

  function HashFailed(fileName: string): string
  {
    "Failed to calculate hash for file " + fileName
  }

  function Regenerate(mockFileName: string): string
  {
    "Mock file " + mockFileName + " should be regenerated"
  }

  const BuildFailed: string := "Failed to build command for mock validation"

  function RunFailed(originalName: string): string
  {
    "Failed to read mockgen command from original file " + originalName
  }

  function NoOriginal(mockName: string): string
  {
    "Failed to get original file for mock " + mockName
  }

  function NoCommand(originalName: string): string
  {
    "Failed to get mockgen generating command from original file " + originalName
  }

  const WalkFailed: string := "Failed to extract files to validate mocks generated properly."

  /**
    Comparing the committed mock with the fresh output, given how opening and
    hashing each of them went. The committed mock is opened first, then the
    fresh file, then both are hashed in the same order; the first failure is
    recorded and ends the comparison. When everything succeeds, exactly one
    message is recorded if the digests differ and none if they are equal.
   */
  function CompareDigests(mock: FileData, newFilePath: string,
                          mockOpen: Option<string>, generatedOpen: Option<string>,
                          mockHash: Result<Digest>, generatedHash: Result<Digest>,
                          log: Log): (r: Log)
    ensures Extends(r, log) && |r| <= |log| + 1
    ensures mockOpen.Some? ==> r == Append(log, OpenFailed(newFilePath), mockOpen)
    ensures mockOpen.None? && generatedOpen.Some? ==> r == Append(log, OpenFailed(newFilePath), generatedOpen)
    ensures mockOpen.None? && generatedOpen.None? && mockHash.Err? ==>
              r == Append(log, HashFailed(mock.path), Some(mockHash.reason))
    ensures mockOpen.None? && generatedOpen.None? && mockHash.Ok? && generatedHash.Err? ==>
              r == Append(log, HashFailed(newFilePath), Some(generatedHash.reason))
    ensures mockOpen.None? && generatedOpen.None? && mockHash.Ok? && generatedHash.Ok? ==>
              (r == log <==> mockHash.value == generatedHash.value)
              && (mockHash.value != generatedHash.value ==> r == log + [Regenerate(mock.fileName)])
  {
    if mockOpen.Some? then Append(log, OpenFailed(newFilePath), mockOpen)
    else if generatedOpen.Some? then Append(log, OpenFailed(newFilePath), generatedOpen)
    else if mockHash.Err? then Append(log, HashFailed(mock.path), Some(mockHash.reason))
    else if generatedHash.Err? then Append(log, HashFailed(newFilePath), Some(generatedHash.reason))
    else if mockHash.value != generatedHash.value then Append(log, Regenerate(mock.fileName), None)
    else log
  }

  /** The comparison for one invocation, with the observations taken from `env`. */
  function CompareMocks(env: Environment, mock: FileData, newFilePath: string, cmd: Invocation, log: Log): Log
  {
    CompareDigests(mock, newFilePath, env.openMock(mock.path), env.openGenerated(cmd),
                   env.hashMock(mock.path), env.hashGenerated(cmd), log)
  }

  /** The committed mock and the fresh output could both be opened and hashed. */
  predicate ComparisonSucceeds(env: Environment, mock: FileData, cmd: Invocation)
  {
    env.openMock(mock.path).None? && env.openGenerated(cmd).None?
    && env.hashMock(mock.path).Ok? && env.hashGenerated(cmd).Ok?
  }

  /**
    What one line of the original file `originalName` appends to the log. A
    line without the marker appends nothing. A command line of fewer than
    three tokens records the build error; otherwise the rewritten invocation
    is run, and a failed run is recorded while a successful one goes on to
    the comparison.
   */
  function LineEntries(env: Environment, originalName: string, mock: FileData, line: string): (entries: seq<string>)
    ensures |entries| <= 1
    ensures !Contains(line, GenerateMarker) ==> entries == []
    ensures Contains(line, GenerateMarker) && |Split(line, ' ')| < 3 ==>
              entries == [BuildFailed + " with error " + InvalidCommand(line, originalName)]
    ensures Contains(line, GenerateMarker) && |Split(line, ' ')| >= 3 ==>
              var cmd := Invocation(Tool, RewriteArgs(Split(line, ' '), ScratchPath(originalName)));
              && (env.runGenerator(cmd).Some? ==>
                    entries == [RunFailed(originalName) + " with error " + env.runGenerator(cmd).value])
              && (env.runGenerator(cmd).None? ==>
                    entries == CompareMocks(env, mock, ScratchPath(originalName), cmd, []))
  {
    if !Contains(line, GenerateMarker) then []
    else
      var newFilePath := ScratchPath(originalName);
      match BuildCommand(line, originalName, newFilePath)
      case Err(reason) => Append([], BuildFailed, Some(reason))
      case Ok(cmd) =>
        match env.runGenerator(cmd)
        case Some(reason) => Append([], RunFailed(originalName), Some(reason))
        case None => CompareMocks(env, mock, newFilePath, cmd, [])
  }

  /** `LineEntries` for the lines of one original file and one mock. */
  function LineStep(env: Environment, originalName: string, mock: FileData): string -> seq<string>
  {
    line => LineEntries(env, originalName, mock, line)
  }

  /** The scan over the original file's lines, in order, threading the log. */
  function ScanLines(env: Environment, originalName: string, mock: FileData, lines: seq<string>, log: Log): (r: Log)
    ensures r == log + Concat(lines, LineStep(env, originalName, mock))
    ensures (forall i :: 0 <= i < |lines| ==> !Contains(lines[i], GenerateMarker)) ==> r == log
  {
    var step := LineStep(env, originalName, mock);
    AppendEachConcatenates(log, lines, step);
    if forall i :: 0 <= i < |lines| ==> !Contains(lines[i], GenerateMarker) then
      assert forall i :: 0 <= i < |lines| ==> step(lines[i]) == [];
      ConcatEmptyIff(lines, step);
      AppendEach(log, lines, step)
    else AppendEach(log, lines, step)
  }

  /** Some line of the file mentions the generator. */
  predicate HasCommandLine(lines: seq<string>)
  {
    exists i :: 0 <= i < |lines| && Contains(lines[i], GenerateMarker)
  }

  /**
    All checks for the mock `mockName`: a missing or unreadable original
    file is recorded once and nothing else is done; otherwise every command
    line is processed and, if there is none, exactly one message says so.
   */
  function ValidateMock(env: Environment, projectFiles: FileIndex, mockName: string, mock: FileData, log: Log): (r: Log)
    ensures Extends(r, log)
    ensures OriginalName(mockName) !in projectFiles ==>
              r == log + [NoOriginal(mockName) + " with error " + StaleMock(mockName)]
    ensures OriginalName(mockName) in projectFiles ==>
              var path := projectFiles[OriginalName(mockName)].path;
              && (env.openOriginal(path).Err? ==>
                    r == Append(log, NoOriginal(mockName), Some(env.openOriginal(path).reason)))
              && (env.openOriginal(path).Ok? && !HasCommandLine(env.openOriginal(path).value) ==>
                    r == log + [NoCommand(path)])
              && (env.openOriginal(path).Ok? && HasCommandLine(env.openOriginal(path).value) ==>
                    r == log + Concat(env.openOriginal(path).value, LineStep(env, path, mock)))
  {
    match GetOriginalFile(projectFiles, mockName, env.openOriginal)
    case Err(reason) => Append(log, NoOriginal(mockName), Some(reason))
    case Ok(original) =>
      var after := ScanLines(env, original.name, mock, original.lines, log);
      if !HasCommandLine(original.lines) then Append(after, NoCommand(original.name), None)
      else after
  }

  /**
    An original file with one generation command whose run and comparison
    succeed: the mock contributes exactly the "should be regenerated"
    message when the digests differ, and nothing when they are equal.
   */
  lemma SingleCommandVerdict(env: Environment, projectFiles: FileIndex, mockName: string, mock: FileData,
                             before: seq<string>, line: string, after: seq<string>)
    requires OriginalName(mockName) in projectFiles
    requires var path := projectFiles[OriginalName(mockName)].path;
             env.openOriginal(path) == Ok(before + [line] + after)
    requires forall i :: 0 <= i < |before| ==> !Contains(before[i], GenerateMarker)
    requires forall i :: 0 <= i < |after| ==> !Contains(after[i], GenerateMarker)
    requires Contains(line, GenerateMarker) && |Split(line, ' ')| >= 3
    requires var path := projectFiles[OriginalName(mockName)].path;
             var cmd := Invocation(Tool, RewriteArgs(Split(line, ' '), ScratchPath(path)));
             env.runGenerator(cmd).None? && ComparisonSucceeds(env, mock, cmd)
    ensures var path := projectFiles[OriginalName(mockName)].path;
            var cmd := Invocation(Tool, RewriteArgs(Split(line, ' '), ScratchPath(path)));
            ValidateMock(env, projectFiles, mockName, mock, [])
            == if env.hashMock(mock.path).value != env.hashGenerated(cmd).value
               then [Regenerate(mock.fileName)] else []
  {
    var path := projectFiles[OriginalName(mockName)].path;
    var lines := before + [line] + after;
    assert lines[|before|] == line;
    assert HasCommandLine(lines);
    OnlyCommandLineCounts(env, path, mock, before, line, after);
  }

  /** Around a single command line, the other lines add nothing. */
  lemma OnlyCommandLineCounts(env: Environment, originalName: string, mock: FileData,
                              before: seq<string>, line: string, after: seq<string>)
    requires forall i :: 0 <= i < |before| ==> !Contains(before[i], GenerateMarker)
    requires forall i :: 0 <= i < |after| ==> !Contains(after[i], GenerateMarker)
    ensures Concat(before + [line] + after, LineStep(env, originalName, mock))
            == LineEntries(env, originalName, mock, line)
  {
    var step := LineStep(env, originalName, mock);
    forall i | 0 <= i < |before|
      ensures step(before[i]) == []
    {
      assert !Contains(before[i], GenerateMarker);
    }
    forall i | 0 <= i < |after|
      ensures step(after[i]) == []
    {
      assert !Contains(after[i], GenerateMarker);
    }
    ConcatSingle(before, line, after, step);
  }

  /** The messages the mock `mockName` contributes on its own. */
  function MockEntries(env: Environment, projectFiles: FileIndex, mockName: string, mock: FileData): seq<string>
  {
    ValidateMock(env, projectFiles, mockName, mock, [])
  }

  /** Validating a mock appends what the mock contributes on its own. */
  lemma {:induction false} ValidateMockAppends(env: Environment, projectFiles: FileIndex, mockName: string,
                                               mock: FileData, log: Log)
    ensures ValidateMock(env, projectFiles, mockName, mock, log) == log + MockEntries(env, projectFiles, mockName, mock)
  {
    match GetOriginalFile(projectFiles, mockName, env.openOriginal)
    case Err(reason) =>
      var entry := Formatted(NoOriginal(mockName), Some(reason));
      assert ValidateMock(env, projectFiles, mockName, mock, log) == log + [entry];
      assert MockEntries(env, projectFiles, mockName, mock) == [] + [entry];
    case Ok(original) =>
      var all := Concat(original.lines, LineStep(env, original.name, mock));
      assert [] + all == all;
      if !HasCommandLine(original.lines) {
        var entry := Formatted(NoCommand(original.name), None);
        assert ValidateMock(env, projectFiles, mockName, mock, log) == (log + all) + [entry];
        assert MockEntries(env, projectFiles, mockName, mock) == all + [entry];
        assert (log + all) + [entry] == log + (all + [entry]);
      } else {
        assert ValidateMock(env, projectFiles, mockName, mock, log) == log + all;
        assert MockEntries(env, projectFiles, mockName, mock) == all;
      }
  }

  /** `MockEntries` for the mocks of the index `mocks`; names outside it contribute nothing. */
  function MockStep(env: Environment, mocks: FileIndex, projectFiles: FileIndex): string -> seq<string>
  {
    name => if name in mocks then MockEntries(env, projectFiles, name, mocks[name]) else []
  }

  /**
    The pass over all mocks, in the order `order` the map iteration happens
    to produce, each mock appending its messages in turn. Mocks are
    validated independently: the pass appends, in visiting order, what each
    mock would contribute on its own.
   */
  function ValidateFiles(env: Environment, mocks: FileIndex, projectFiles: FileIndex,
                         order: seq<string>, log: Log): (r: Log)
    requires forall i :: 0 <= i < |order| ==> order[i] in mocks
    ensures r == log + Concat(order, MockStep(env, mocks, projectFiles))
  {
    var step := MockStep(env, mocks, projectFiles);
    AppendEachConcatenates(log, order, step);
    AppendEach(log, order, step)
  }

  /** The pass records nothing exactly when no mock in the order contributes a message. */
  lemma ValidateFilesSilentIff(env: Environment, mocks: FileIndex, projectFiles: FileIndex,
                               order: seq<string>, log: Log)
    requires forall i :: 0 <= i < |order| ==> order[i] in mocks
    ensures ValidateFiles(env, mocks, projectFiles, order, log) == log <==>
            forall i :: 0 <= i < |order| ==> MockEntries(env, projectFiles, order[i], mocks[order[i]]) == []
  {
    var step := MockStep(env, mocks, projectFiles);
    ConcatEmptyIff(order, step);
    assert forall i :: 0 <= i < |order| ==> step(order[i]) == MockEntries(env, projectFiles, order[i], mocks[order[i]]);
    var all := Concat(order, step);
    assert log + all == log <==> all == [] by {
      assert |log + all| == |log| + |all|;
    }
  }

  /** `order` lists every key of `index` exactly once. */
  predicate IsEnumeration(order: seq<string>, index: FileIndex)
  {
    && (forall i, j :: 0 <= i < j < |order| ==> order[i] != order[j])
    && (forall i :: 0 <= i < |order| ==> order[i] in index)
    && (forall name :: name in index ==> name in order)
  }

  /**
    Over a full enumeration of the mock index, the pass records nothing
    exactly when no mock of the index contributes a message.
   */
  lemma ValidateAllSilentIff(env: Environment, mocks: FileIndex, projectFiles: FileIndex, order: seq<string>)
    requires IsEnumeration(order, mocks)
    ensures ValidateFiles(env, mocks, projectFiles, order, []) == [] <==>
            forall name :: name in mocks ==> MockEntries(env, projectFiles, name, mocks[name]) == []
  {
    ValidateFilesSilentIff(env, mocks, projectFiles, order, []);
    forall name | name in mocks
      ensures exists i :: 0 <= i < |order| && order[i] == name
    {
      assert name in order;
    }
  }

  /** How the program ends: silently, or by printing every message and failing. */
  datatype Verdict = Passed | Failed(messages: Log)

  /**
    The program after the walk: `ix` is what the walk collected and
    `walkError` the error it returned, if any; `order` is the iteration order
    of the mock index. Validation only runs when the walk recorded nothing,
    and the program fails exactly when some message was recorded.
   */
  function Conclude(env: Environment, ix: Indices, walkError: Option<string>, order: seq<string>): (v: Verdict)
    requires IsEnumeration(order, ix.mocks)
    ensures v.Failed? ==> HasErrors(v.messages)
    ensures walkError.Some? ==> v == Failed([WalkFailed + " with error " + walkError.value])
    ensures walkError.None? ==> v.Failed? ==> v.messages == ValidateFiles(env, ix.mocks, ix.project, order, [])
  {
    var log := if walkError.Some? then Append([], WalkFailed, walkError) else [];
    var log := if !HasErrors(log) then ValidateFiles(env, ix.mocks, ix.project, order, log) else log;
    if HasErrors(log) then Failed(log) else Passed
  }

  /**
    The program passes exactly when the walk succeeded and no mock
    contributes a message; in particular the verdict does not depend on the
    order in which the mocks are visited.
   */
  lemma ConcludePassesIff(env: Environment, ix: Indices, walkError: Option<string>, order: seq<string>)
    requires IsEnumeration(order, ix.mocks)
    ensures Conclude(env, ix, walkError, order) == Passed <==>
            walkError.None? &&
            forall name :: name in ix.mocks ==> MockEntries(env, ix.project, name, ix.mocks[name]) == []
  {
    if walkError.None? {
      ValidateAllSilentIff(env, ix.mocks, ix.project, order);
      var log := ValidateFiles(env, ix.mocks, ix.project, order, []);
      assert !HasErrors(log) <==> log == [];
    }
  }

  /**
    The whole program: the walk visits `entries`, then the rest follows.
    With two enumerations of the mock index the verdict is the same.
   */
  function Run(env: Environment, entries: seq<Entry>, walkError: Option<string>, order: seq<string>): (v: Verdict)
    requires IsEnumeration(order, Scan(entries).mocks)
    ensures v.Failed? ==> HasErrors(v.messages)
    ensures walkError.Some? ==> v == Failed([WalkFailed + " with error " + walkError.value])
  {
    Conclude(env, Scan(entries), walkError, order)
  }

  /** Whether the program passes does not depend on the order the mocks are visited in. */
  lemma RunVerdictIndependentOfOrder(env: Environment, entries: seq<Entry>, walkError: Option<string>,
                                     order1: seq<string>, order2: seq<string>)
    requires IsEnumeration(order1, Scan(entries).mocks)
    requires IsEnumeration(order2, Scan(entries).mocks)
    ensures Run(env, entries, walkError, order1).Passed? <==> Run(env, entries, walkError, order2).Passed?
  {
    var ix := Scan(entries);
    ConcludePassesIff(env, ix, walkError, order1);
    ConcludePassesIff(env, ix, walkError, order2);
  }
}
