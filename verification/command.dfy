/**
  Turning the generation comment found in an original file into the
  argument list handed to the generator. The comment is cut at every single
  space; the first two tokens (the comment marker and the tool name) are
  dropped, the token at position 3 is replaced by a destination flag that
  points at the scratch path, and every other token is passed on in order.
 */
module Command {
  import opened Wrappers
  import opened Strings

  /** The generator is always invoked under this name. */
  const Tool: string := "mockgen"

  /** The flag that replaces token 3. */
  function DestinationFlag(path: string): string
  {
    "-destination=" + path
  }

  /** A process to launch: program name and its arguments. */
  datatype Invocation = Invocation(program: string, args: seq<string>)

  /** What the rewrite puts in place of the token at position `index`. */
  function Rewritten(tokens: seq<string>, index: nat, newFilePath: string): string
    requires index < |tokens|
  {
    if index == 3 then DestinationFlag(newFilePath) else tokens[index]
  }

  /**
    The arguments produced from the first `n` tokens, one token at a time:
    positions 0 and 1 contribute nothing, position 3 contributes the
    destination flag and every other position contributes its own token.
   */
  function RewriteUpTo(tokens: seq<string>, n: nat, newFilePath: string): (args: seq<string>)
    requires n <= |tokens|
    ensures n <= 2 ==> args == []
    ensures n >= 2 ==> |args| == n - 2
    ensures forall j :: 0 <= j < |args| ==> args[j] == Rewritten(tokens, j + 2, newFilePath)
  {
    if n == 0 then []
    else
      var before := RewriteUpTo(tokens, n - 1, newFilePath);
      var index := n - 1;
      if index <= 1 then before
      else if index != 3 then before + [tokens[index]]
      else before + [DestinationFlag(newFilePath)]
  }

  /** The complete rewrite of a token list. */
  function RewriteArgs(tokens: seq<string>, newFilePath: string): (args: seq<string>)
    requires |tokens| >= 3
    ensures |args| == |tokens| - 2
    ensures args[0] == tokens[2]
    ensures |tokens| == 3 ==> args == [tokens[2]]
    ensures |tokens| >= 4 ==> args[1] == DestinationFlag(newFilePath)
    ensures forall k :: 4 <= k < |tokens| ==> args[k - 2] == tokens[k]
  {
    var args := RewriteUpTo(tokens, |tokens|, newFilePath);
    assert forall k :: 4 <= k < |tokens| ==> args[k - 2] == Rewritten(tokens, k, newFilePath);
    args
  }

  /** The message of the error returned for a line with fewer than three tokens. */
  function InvalidCommand(text: string, originalName: string): string
  {
    "Invalid mockgen generating command " + text + " from original file " + originalName
  }

  /**
    Builds the generator invocation from a comment line `text` of the file
    `originalName`, writing to `newFilePath`. A line with fewer than three
    space-separated tokens yields an error and no invocation.
   */
  function BuildCommand(text: string, originalName: string, newFilePath: string): (r: Result<Invocation>)
    ensures r.Err? <==> |Split(text, ' ')| < 3
    ensures r.Err? <==> multiset(text)[' '] < 2
    ensures r.Err? ==> r.reason == InvalidCommand(text, originalName)
    ensures r.Ok? ==> r.value.program == Tool
    ensures r.Ok? ==> r.value.args == RewriteArgs(Split(text, ' '), newFilePath)
  {
    var tokens := Split(text, ' ');
    if |tokens| < 3 then Err(InvalidCommand(text, originalName))
    else Ok(Invocation(Tool, RewriteArgs(tokens, newFilePath)))
  }

  /**
    Putting the comment marker, the tool name and the original token 3 back
    in front of / into the arguments restores the tokenised line: the
    rewrite changes nothing but the destination.
   */
  lemma {:induction false} RewriteChangesOnlyDestination(tokens: seq<string>, newFilePath: string)
    requires |tokens| >= 3
    ensures var args := RewriteArgs(tokens, newFilePath);
            tokens == tokens[..2] + (if |tokens| == 3 then args else args[1 := tokens[3]])
  {
    var args := RewriteArgs(tokens, newFilePath);
    if |tokens| == 3 {
      assert tokens == tokens[..2] + [tokens[2]];
    } else {
      var restored := tokens[..2] + args[1 := tokens[3]];
      assert |restored| == |tokens|;
      forall k | 0 <= k < |tokens|
        ensures restored[k] == tokens[k]
      {
        if k >= 4 {
          assert args[k - 2] == tokens[k];
        }
      }
    }
  }

  /**
    For a line that is already a space-separated list of tokens, the
    invocation's arguments are exactly those tokens rewritten.
   */
  lemma {:induction false} BuildFromTokens(tokens: seq<string>, originalName: string, newFilePath: string)
    requires |tokens| >= 3
    requires Avoids(tokens, ' ')
    ensures BuildCommand(Join(tokens, ' '), originalName, newFilePath)
            == Ok(Invocation(Tool, RewriteArgs(tokens, newFilePath)))
  {
    SplitJoin(tokens, ' ');
  }

  /** The comment marker and the tool name hold no space. */
  lemma LeadingTokensAvoidSpace()
    ensures ' ' !in "//" && ' ' !in Tool
  {
  }

  /**
    The documented shape of a generation comment,
    `// mockgen -source=<path> -destination=<path> [flags...]`: the invocation
    keeps the source flag, points the destination at the scratch path and
    passes the remaining flags on unchanged.
   */
  lemma ConventionalComment(source: string, destination: string, flags: seq<string>,
                            originalName: string, newFilePath: string)
    requires ' ' !in source && ' ' !in destination && Avoids(flags, ' ')
    ensures BuildCommand(Join(["//", Tool, source, destination] + flags, ' '), originalName, newFilePath)
            == Ok(Invocation(Tool, [source, DestinationFlag(newFilePath)] + flags))
  {
    var tokens := ["//", Tool, source, destination] + flags;
    ConventionalTokensAvoidSpace(source, destination, flags);
    BuildFromTokens(tokens, originalName, newFilePath);
    RewriteConventional(tokens, source, flags, newFilePath);
  }

  lemma ConventionalTokensAvoidSpace(source: string, destination: string, flags: seq<string>)
    requires ' ' !in source && ' ' !in destination && Avoids(flags, ' ')
    ensures Avoids(["//", Tool, source, destination] + flags, ' ')
  {
    var tokens := ["//", Tool, source, destination] + flags;
    LeadingTokensAvoidSpace();
    forall k | 0 <= k < |tokens|
      ensures ' ' !in tokens[k]
    {
      if k >= 4 {
        assert tokens[k] == flags[k - 4];
      }
    }
  }

  lemma RewriteConventional(tokens: seq<string>, source: string, flags: seq<string>, newFilePath: string)
    requires |tokens| == 4 + |flags| && tokens[2] == source && tokens[4..] == flags
    ensures RewriteArgs(tokens, newFilePath) == [source, DestinationFlag(newFilePath)] + flags
  {
    var args := RewriteArgs(tokens, newFilePath);
    var expected := [source, DestinationFlag(newFilePath)] + flags;
    assert |args| == |expected|;
    forall j | 0 <= j < |args|
      ensures args[j] == expected[j]
    {
      if j >= 2 {
        assert args[j] == tokens[j + 2];
        assert tokens[j + 2] == flags[j - 2];
      }
    }
  }
}
