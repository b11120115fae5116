/**
 * Message routing and command dispatch of elbie.ts: the prefix test, the
 * choice between the help listing, a registered handler and the fixed
 * "couldn't understand" reply, and the try/catch that turns a handler's
 * synchronous throw into one templated error reply.
 */
module Dispatch {
  import opened Wrappers
  import opened Strings
  import opened CommandParser
  import opened Registry

  /** The command prefix. */
  const PREFIX: char := '+'
  /** The name that the synthesised help listing answers to. */
  const HELP: string := "?"
  const NOT_UNDERSTOOD: string := "I couldn't understand that command."
  const ERROR_OPEN: string := "I ran into an error of type "
  const ERROR_CLOSE: string := ": check console for details."
  /** The `name` of the error JavaScript throws when a property of `undefined` is read. */
  const TYPE_ERROR: string := "TypeError"

  /**
   * How a handler call ends: it returns; it throws a value whose `name` reads as
   * `errorName` (an object without `name` reads as "undefined"); or it throws
   * `undefined` or `null`, whose `name` cannot be read at all.
   */
  datatype HandlerResult = Returned | Threw(errorName: string) | ThrewNameless

  /** What the bot does with one message: call a handler, reply in the channel, or let the listener's promise reject. */
  datatype Action = Invoke(handler: HandlerId) | Reply(text: string) | Rejected(errorName: string)

  /** What each handler does with a given command on this call. */
  type Behaviour = (HandlerId, Parsed) -> HandlerResult

  /** `isCommand`: the first character of the content is the prefix (`content[0]` of "" is undefined). */
  function IsCommand(content: string): (r: bool)
    ensures r ==> [PREFIX] <= content
    ensures !r ==> content == [] || content[0] != PREFIX
  {
    |content| > 0 && content[0] == PREFIX
  }

  /** A message is a command exactly when it is the prefix followed by anything; the empty message is not. */
  lemma IsCommandIffPrefixed(c: char, rest: string)
    ensures IsCommand([c] + rest) <==> c == PREFIX
    ensures !IsCommand("")
  {
  }

  /** `errorHandler`: the reply for a handler that threw an error called `errorName`. */
  function ErrorReply(errorName: string): (r: string)
    ensures |r| == |ERROR_OPEN| + |errorName| + |ERROR_CLOSE|
    ensures ERROR_OPEN <= r
  {
    ERROR_OPEN + errorName + ERROR_CLOSE
  }

  /** Reads the error name back out of an error reply; None for any other text. */
  function ErrorNameOf(reply: string): Option<string> {
    if |reply| >= |ERROR_OPEN| + |ERROR_CLOSE|
       && reply[..|ERROR_OPEN|] == ERROR_OPEN
       && reply[|reply| - |ERROR_CLOSE|..] == ERROR_CLOSE
    then Some(reply[|ERROR_OPEN|..|reply| - |ERROR_CLOSE|])
    else None
  }

  /** The error reply names its error: reading it back gives the name. */
  lemma ErrorReplyRoundTrip(errorName: string)
    ensures ErrorNameOf(ErrorReply(errorName)) == Some(errorName)
  {
    var r := ErrorReply(errorName);
    assert r[..|ERROR_OPEN|] == ERROR_OPEN;
    assert r[|r| - |ERROR_CLOSE|..] == ERROR_CLOSE;
    assert r[|ERROR_OPEN|..|r| - |ERROR_CLOSE|] == errorName;
  }

  /** Every text from which an error name can be read is the error reply for that name. */
  lemma ErrorNameOfInverse(reply: string)
    requires ErrorNameOf(reply).Some?
    ensures ErrorReply(ErrorNameOf(reply).value) == reply
  {
    var a, b := |ERROR_OPEN|, |reply| - |ERROR_CLOSE|;
    assert reply == reply[..a] + reply[a..b] + reply[b..];
  }

  /** Distinct errors give distinct replies, and no error reply reads as the "couldn't understand" reply. */
  lemma ErrorRepliesDistinguishable(n1: string, n2: string)
    ensures ErrorReply(n1) == ErrorReply(n2) ==> n1 == n2
    ensures ErrorReply(n1) != NOT_UNDERSTOOD
  {
    ErrorReplyRoundTrip(n1);
    ErrorReplyRoundTrip(n2);
    assert ErrorReply(n1)[2] == 'r' && NOT_UNDERSTOOD[2] == 'c';
  }

  /** JavaScript truthiness of an optional description: undefined and "" are false. */
  predicate Truthy(desc: Option<string>) {
    desc.Some? && desc.value != ""
  }

  /** One line of the help listing. */
  function HelpLine(name: string, desc: Option<string>): string {
    if Truthy(desc) then name + " : " + desc.value else name
  }

  /** The help listing's lines: one per registry key, in iteration order. */
  function HelpLines(t: Table): seq<string> {
    seq(|t.order|, i requires 0 <= i < |t.order| => HelpLine(t.order[i], ValueAt(t, i).desc))
  }

  /** The help reply: the lines joined with newlines. */
  function HelpText(t: Table): string {
    Join(HelpLines(t), "\n")
  }

  /** The loop of `handler` for "?": push one line per key, in key order, then join them with "\n". */
  method HelpListing(t: Table) returns (text: string)
    ensures text == HelpText(t)
  {
    var output: seq<string> := [];
    var i := 0;
    while i < |t.order|
      invariant 0 <= i <= |t.order|
      invariant output == HelpLines(t)[..i]
    {
      var name := t.order[i];
      Listed(t, name);
      assert HelpLines(t)[i] == HelpLine(name, t.entries[name].desc);
      assert HelpLines(t)[..i + 1] == HelpLines(t)[..i] + [HelpLines(t)[i]];
      output := output + [HelpLine(name, t.entries[name].desc)];
      i := i + 1;
    }
    assert HelpLines(t)[..i] == HelpLines(t);
    text := Join(output, "\n");
  }

  /** An empty registry gets the empty help reply. */
  lemma HelpTextOfEmptyRegistry(t: Table)
    ensures t.order == [] ==> HelpText(t) == ""
  {
    if t.order == [] {
      assert HelpLines(t) == [];
    }
  }

  /**
   * When no name and no description holds a newline, the help reply has exactly
   * one line per registry key, in iteration order: "<name> : <desc>" for a
   * truthy description and "<name>" otherwise.
   */
  lemma HelpTextLines(t: Table)
    requires |t.order| > 0
    requires forall i :: 0 <= i < |t.order| ==> '\n' !in t.order[i]
    requires forall k :: k in t.entries && t.entries[k].desc.Some? ==> '\n' !in t.entries[k].desc.value
    ensures var lines := Split(HelpText(t), '\n');
      && |lines| == |t.order|
      && forall i :: 0 <= i < |lines| ==>
           lines[i] == if Truthy(ValueAt(t, i).desc) then t.order[i] + " : " + ValueAt(t, i).desc.value
                       else t.order[i]
  {
    var lines := HelpLines(t);
    forall i | 0 <= i < |lines| ensures '\n' !in lines[i] {
      var name, desc := t.order[i], ValueAt(t, i).desc;
      if Truthy(desc) {
        Listed(t, name);
        assert forall j :: 0 <= j < |name + " : " + desc.value| ==> (name + " : " + desc.value)[j] != '\n' by {
          forall j | 0 <= j < |name + " : " + desc.value| ensures (name + " : " + desc.value)[j] != '\n' {
            if j >= |name| + 3 {
              assert (name + " : " + desc.value)[j] == desc.value[j - |name| - 3];
            }
          }
        }
      }
    }
    SplitJoin(lines, '\n');
  }

  /**
   * `handler`: "?" is answered with the help listing; any other name calls its
   * handler inside try/catch, and only a synchronous throw produces a reply.
   * A name without an entry makes `commandList[name]['key']` throw a TypeError,
   * which the same catch turns into an error reply. A thrown `undefined` or
   * `null` makes `err.name` in `errorHandler` throw a TypeError inside the
   * catch, so `handler` rejects instead of replying.
   */
  function Dispatch(cmd: Parsed, t: Table, run: Behaviour): (r: seq<Action>)
    ensures 1 <= |r| <= 2
  {
    if cmd.command == HELP then [Reply(HelpText(t))]
    else if cmd.command !in t.entries then [Reply(ErrorReply(TYPE_ERROR))]
    else
      var h := t.entries[cmd.command].key;
      match run(h, cmd)
      case Returned => [Invoke(h)]
      case Threw(name) => [Invoke(h), Reply(ErrorReply(name))]
      case ThrewNameless => [Invoke(h), Rejected(TYPE_ERROR)]
  }

  /** The body of `handler`, with the help loop run as HelpListing. */
  method Handler(cmd: Parsed, t: Table, run: Behaviour) returns (actions: seq<Action>)
    ensures actions == Dispatch(cmd, t, run)
  {
    if cmd.command == HELP {
      var text := HelpListing(t);
      actions := [Reply(text)];
    } else if cmd.command !in t.entries {
      actions := [Reply(ErrorReply(TYPE_ERROR))];
    } else {
      var h := t.entries[cmd.command].key;
      actions := [Invoke(h)];
      var outcome := run(h, cmd);
      if outcome.Threw? {
        actions := actions + [Reply(ErrorReply(outcome.errorName))];
      } else if outcome.ThrewNameless? {
        actions := actions + [Rejected(TYPE_ERROR)];
      }
    }
  }

  /**
   * The message listener: a message without the prefix is ignored; a command
   * that cannot be constructed rejects the listener's promise with a TypeError
   * and gets no reply; "?" and registered names are dispatched; anything else
   * gets the fixed reply.
   */
  function Route(content: string, t: Table, run: Behaviour): (r: seq<Action>)
    ensures r == [] <==> !IsCommand(content)
    ensures |r| <= 2
  {
    if !IsCommand(content) then []
    else
      match Parse(content)
      case Err(_) => [Rejected(TYPE_ERROR)]
      case Ok(cmd) =>
        if cmd.command == HELP || cmd.command in t.order then Dispatch(cmd, t, run)
        else [Reply(NOT_UNDERSTOOD)]
  }

  /** The number of replies among the actions. */
  function Replies(actions: seq<Action>): nat
    decreases |actions|
  {
    if actions == [] then 0
    else (if actions[0].Reply? then 1 else 0) + Replies(actions[1..])
  }

  /**
   * Dispatching sends at most one reply and calls at most one handler, first.
   * It rejects exactly when a registered handler throws `undefined` or `null`,
   * and then it sends no reply.
   */
  lemma DispatchIsolatesFailures(cmd: Parsed, t: Table, run: Behaviour)
    ensures var actions := Dispatch(cmd, t, run);
      && Replies(actions) <= 1
      && (forall i :: 0 <= i < |actions| && actions[i].Invoke? ==> i == 0)
      && ((exists i :: 0 <= i < |actions| && actions[i].Rejected?) <==>
          cmd.command != HELP && cmd.command in t.entries && run(t.entries[cmd.command].key, cmd) == ThrewNameless)
      && ((exists i :: 0 <= i < |actions| && actions[i].Rejected?) ==> Replies(actions) == 0)
  {
    var actions := Dispatch(cmd, t, run);
    if |actions| == 2 {
      assert actions[1..][1..] == [];
      assert !actions[0].Reply?;
      assert Replies(actions[1..]) == (if actions[1].Reply? then 1 else 0) + Replies([]);
    } else if |actions| == 1 {
      assert actions[1..] == [];
    }
  }

  /** Messages without the prefix produce nothing at all. */
  lemma RouteIgnoresOtherMessages(content: string, t: Table, run: Behaviour)
    requires !IsCommand(content)
    ensures Route(content, t, run) == []
  {
  }

  /** A prefix followed only by spaces is never answered: the listener rejects with a TypeError. */
  lemma RouteBlankCommand(content: string, t: Table, run: Behaviour)
    requires IsCommand(content)
    requires forall i :: 1 <= i < |content| ==> content[i] == SPACE
    ensures Route(content, t, run) == [Rejected(TYPE_ERROR)]
  {
    ParseFailsIffBlank(content);
  }

  /** "?" is always answered by the help listing alone, even when some module registered "?". */
  lemma RouteHelp(content: string, t: Table, run: Behaviour)
    requires IsCommand(content) && Parse(content).Ok? && Parse(content).value.command == HELP
    ensures Route(content, t, run) == [Reply(HelpText(t))]
  {
  }

  /** A name that is neither "?" nor registered gets exactly the fixed reply, and no handler runs. */
  lemma RouteUnknown(content: string, t: Table, run: Behaviour)
    requires IsCommand(content) && Parse(content).Ok?
    requires Parse(content).value.command != HELP
    requires Parse(content).value.command !in t.entries
    ensures Route(content, t, run) == [Reply(NOT_UNDERSTOOD)]
  {
    Listed(t, Parse(content).value.command);
  }

  /**
   * A registered name calls its handler once; a synchronous throw of a value
   * with a readable `name` adds exactly one reply, the templated error naming
   * it; a throw of `undefined` or `null` adds a rejection and no reply; a
   * return adds nothing.
   */
  lemma RouteRegistered(content: string, t: Table, run: Behaviour)
    requires IsCommand(content) && Parse(content).Ok?
    requires Parse(content).value.command != HELP
    requires Parse(content).value.command in t.entries
    ensures var cmd := Parse(content).value;
            var h := t.entries[cmd.command].key;
            Route(content, t, run) ==
              [Invoke(h)] + match run(h, cmd)
                            case Returned => []
                            case Threw(n) => [Reply(ErrorReply(n))]
                            case ThrewNameless => [Rejected(TYPE_ERROR)]
  {
    Listed(t, Parse(content).value.command);
  }

  /**
   * Routing against the registry built from the modules calls the handler of the
   * last module, in load order, that defines the name.
   */
  lemma RouteCallsLastDefiner(content: string, modules: seq<BotModule>, run: Behaviour, j: nat)
    requires IsCommand(content) && Parse(content).Ok?
    requires Parse(content).value.command != HELP
    requires j < |modules| && Parse(content).value.command in modules[j].commands.entries
    requires forall later :: j < later < |modules| ==> Parse(content).value.command !in modules[later].commands.entries
    ensures Route(content, Build(modules), run)[0] == Invoke(modules[j].commands.entries[Parse(content).value.command].key)
  {
    var name := Parse(content).value.command;
    BuildLastWriterWins(modules, name, j);
    RouteRegistered(content, Build(modules), run);
  }

  /** The example `+greet 0 world` against a registry without "greet" gets the fixed reply. */
  lemma RouteGreetUnregistered(content: string, t: Table, run: Behaviour)
    requires content == "+greet 0 world"
    requires "greet" !in t.entries
    ensures Route(content, t, run) == [Reply(NOT_UNDERSTOOD)]
  {
    GreetExample(content);
    RouteUnknown(content, t, run);
  }
}
