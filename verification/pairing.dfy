/**
  Pairing a generated mock with the original file it was generated from:
  the original's name is the mock's name up to the first "_mock.go", with
  ".go" put back, looked up in the project index.
 */
module Pairing {
  import opened Wrappers
  import opened Strings
  import opened Scanner

  const MockSuffix: string := "_mock.go"

  /** The name of the original file a mock called `mockName` belongs to. */
  function OriginalName(mockName: string): (r: string)
    ensures |r| >= 3 && r[|r| - 3..] == ".go"
    ensures Contains(mockName, MockSuffix) ==> r[..|r| - 3] + MockSuffix <= mockName
    ensures !Contains(mockName, MockSuffix) ==> r == mockName + ".go"
    ensures forall j: nat :: j < |r| - 3 ==> !OccursAt(mockName, MockSuffix, j)
  {
    var base := PrefixBefore(mockName, MockSuffix);
    var r := base + ".go";
    assert r[..|r| - 3] == base;
    r
  }

  /** The error `getOriginalFile` returns when the derived name is not indexed. */
  function StaleMock(mockName: string): string
  {
    "Did not find original file for mock " + mockName + " this mock might be stale."
  }

  /**
    An original file opened for reading: the name it was opened under (its
    walk path, which is what the file reports as its name) and its lines.
   */
  datatype OpenedFile = OpenedFile(name: string, lines: seq<string>)

  /**
    Finds and opens the original file of the mock `mockName`. `open` stands
    for the file system: it yields a file's lines or the open failure.
   */
  function GetOriginalFile(projectFiles: FileIndex, mockName: string,
                           open: string -> Result<seq<string>>): (r: Result<OpenedFile>)
    ensures OriginalName(mockName) !in projectFiles ==> r == Err(StaleMock(mockName))
    ensures OriginalName(mockName) in projectFiles ==>
              var path := projectFiles[OriginalName(mockName)].path;
              && (open(path).Err? ==> r == Err(open(path).reason))
              && (open(path).Ok? ==> r == Ok(OpenedFile(path, open(path).value)))
  {
    var originalName := OriginalName(mockName);
    if originalName !in projectFiles then Err(StaleMock(mockName))
    else
      var path := projectFiles[originalName].path;
      match open(path)
      case Err(reason) => Err(reason)
      case Ok(lines) => Ok(OpenedFile(path, lines))
  }

  /** `sub` does not occur at `j` in `s` because the two differ at offset `k`. */
  lemma Mismatch(s: string, sub: string, j: nat, k: nat)
    requires k < |sub| && j + k < |s| && s[j + k] != sub[k]
    ensures !OccursAt(s, sub, j)
  {
    if j + |sub| <= |s| {
      assert s[j..j + |sub|][k] == s[j + k];
    }
  }

  /** The mock of the example fixture, `service_example_mock.go`. */
  const ServiceExampleMock: string := "service" + "_example" + MockSuffix

  /** The example fixture: `service_example_mock.go` belongs to `service_example.go`. */
  lemma ServiceExampleOriginal()
    ensures OriginalName(ServiceExampleMock) == "service_example.go"
  {
    var m := ServiceExampleMock;
    assert OccursAt(m, MockSuffix, 15);
    // Offset 7 is the only `_` before the suffix, and `e` follows it, not `m`.
    forall j: nat | j < 15
      ensures !OccursAt(m, MockSuffix, j)
    {
      if j == 7 {
        Mismatch(m, MockSuffix, 7, 1);
      } else {
        Mismatch(m, MockSuffix, j, 0);
      }
    }
    assert m[..15] == "service_example";
  }
}
