/**
  The validator's error accumulator: an append-only list of messages that
  every stage adds to and nothing ever shortens. It is threaded through the
  pipeline as a value instead of living in a global.
 */
module ErrorLog {
  import opened Wrappers

  type Log = seq<string>

  /**
    The entry recorded for `msg` when it comes with the (possibly absent)
    error `err`: the error's text is added after " with error ", and only
    when there is one.
   */
  function Formatted(msg: string, err: Option<string>): (e: string)
    ensures msg <= e
    ensures e == msg <==> err.None?
    ensures err.Some? ==> e[|msg|..] == " with error " + err.value
  {
    match err
    case None => msg
    case Some(text) => msg + " with error " + text
  }

  /** Records one message; every entry already in the log is kept as it was. */
  function Append(log: Log, msg: string, err: Option<string>): (r: Log)
    ensures |r| == |log| + 1
    ensures r[..|log|] == log
    ensures r[|log|] == Formatted(msg, err)
  {
    log + [Formatted(msg, err)]
  }

  /** The run has failed as soon as one message has been recorded. */
  predicate HasErrors(log: Log)
  {
    |log| > 0
  }

  /** `later` was obtained from `earlier` by appending zero or more messages. */
  predicate Extends(later: Log, earlier: Log)
  {
    earlier <= later
  }

  /** The messages of every item, concatenated in item order. */
  function Concat<T>(items: seq<T>, messages: T -> seq<string>): seq<string>
    decreases |items|
  {
    if |items| == 0 then [] else messages(items[0]) + Concat(items[1..], messages)
  }

  /** Handling `items` in order, each appending its own `messages` to the log. */
  function AppendEach<T>(log: Log, items: seq<T>, messages: T -> seq<string>): (r: Log)
    decreases |items|
  {
    if |items| == 0 then log else AppendEach(log + messages(items[0]), items[1..], messages)
  }

  /**
    Items are handled independently: handling them appends, in order, what
    each would append on its own, whatever was logged before.
   */
  lemma {:induction false} AppendEachConcatenates<T>(log: Log, items: seq<T>, messages: T -> seq<string>)
    ensures AppendEach(log, items, messages) == log + Concat(items, messages)
    decreases |items|
  {
    if |items| > 0 {
      var first := messages(items[0]);
      var others := Concat(items[1..], messages);
      AppendEachConcatenates(log + first, items[1..], messages);
      assert (log + first) + others == log + (first + others);
    }
  }

  /** The messages of two runs of items, one after the other. */
  lemma {:induction false} ConcatAppend<T>(a: seq<T>, b: seq<T>, messages: T -> seq<string>)
    ensures Concat(a + b, messages) == Concat(a, messages) + Concat(b, messages)
    decreases |a|
  {
    if |a| == 0 {
      assert a + b == b;
    } else {
      assert (a + b)[0] == a[0];
      assert (a + b)[1..] == a[1..] + b;
      ConcatAppend(a[1..], b, messages);
      var first := messages(a[0]);
      var ra := Concat(a[1..], messages);
      var rb := Concat(b, messages);
      assert first + (ra + rb) == (first + ra) + rb;
    }
  }

  /** The items add nothing exactly when none of them has anything to say. */
  lemma {:induction false} ConcatEmptyIff<T>(items: seq<T>, messages: T -> seq<string>)
    ensures Concat(items, messages) == [] <==> forall i :: 0 <= i < |items| ==> messages(items[i]) == []
    decreases |items|
  {
    if |items| > 0 {
      ConcatEmptyIff(items[1..], messages);
      assert forall i :: 1 <= i < |items| ==> items[i] == items[1..][i - 1];
    }
  }

  /** Among items that have nothing to say, one item's messages are all there is. */
  lemma ConcatSingle<T>(before: seq<T>, x: T, after: seq<T>, messages: T -> seq<string>)
    requires forall i :: 0 <= i < |before| ==> messages(before[i]) == []
    requires forall i :: 0 <= i < |after| ==> messages(after[i]) == []
    ensures Concat(before + [x] + after, messages) == messages(x)
  {
    ConcatAppend(before + [x], after, messages);
    ConcatAppend(before, [x], messages);
    ConcatEmptyIff(before, messages);
    ConcatEmptyIff(after, messages);
    assert Concat([x], messages) == messages(x) + [];
  }
}
