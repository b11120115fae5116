# Elbie command pipeline in Dafny

Elbie is a Discord bot. This project models the core of the bot:

- **The command parser** (`src/objects/command.ts`). It drops the prefix
  character and splits the rest of the message on single spaces. Empty pieces
  are dropped. The first token, lower-cased, becomes the command name; the
  remaining tokens become `args`, and `argument` is `args` joined by one space.
  The constructor first normalises the channel's and author's `id` with
  `clean`, which deletes every character outside `[A-Za-z0-9_]` in place.
- **The registry** (`elbie.ts`). It folds the modules' command tables
  into one `commandList` with `Object.assign`. A JavaScript object is modelled
  as an insertion-ordered map. An overwritten key keeps its position.
- **Routing and dispatch** (`elbie.ts`):
  - the `+` prefix test;
  - the fixed reply for unknown names;
  - the help listing for `?`;
  - the `try`/`catch` that turns a handler's synchronous throw into one
    templated error reply, and the TypeError that `errorHandler` itself
    throws when the thrown value is `undefined` or `null`.
- **The session** (`elbie.ts`):
  - the presence label chosen from `BUILD`;
  - the call `process.exit(400)` when the initial login is rejected;
  - one new login with the same token on every `disconnect` and `error` event;
  - the message listener.

Files:

- `wrappers.dfy`: `Option` and `Result`.
- `strings.dfy`: JavaScript `split` and `join` on a one-character separator, with both round trips.
- `command.dfy`: the tokeniser, `Parse`, `clean`, and the `Entity`, `Message` and `Command` classes.
- `registry.dfy`: ordered tables, `Object.assign`, and the registry fold with its loop.
- `dispatch.dfy`: `isCommand`, `errorHandler`, the help loop, `handler` and routing.
- `session.dfy`: the presence switch, the event reactions, and the `Client` class that records them.

Handlers are opaque. A `Behaviour` says, for each handler and command, whether
the call returns, throws a value whose `name` reads as a given string, or
throws `undefined` or `null`. What the bot sends or
calls is recorded as a value:

- `Action`: a handler invocation, a reply in the channel, or a rejected listener promise.
- `Call`: a login, a presence update, or a process exit.

Two edge cases decide what failures look like.

- **No token after the prefix.** Construction does not yield an empty name:
  `content[0]` is `undefined`, so `content[0].toLowerCase()` throws a
  TypeError (`command.ts:9`). `clean` has by then already run on the channel
  and the author (lines 6-7). So `Parse` returns `Err(NoFirstToken)`, and
  `Command.Construct` cleans both ids and then fails. The message listener's
  promise rejects with a TypeError, and no reply is sent.
- **What `handler` catches.** A name without an entry makes
  `commandList[name]['key']` throw a TypeError inside the `try`, which becomes
  the error reply. A handler that throws `undefined` or `null` is different:
  `err.name` in `errorHandler` (`elbie.ts:96`) throws a TypeError inside the
  `catch`, so `handler` rejects, the listener's `await` (`elbie.ts:121`)
  rejects too, and no reply is sent. A thrown value without a `name`
  property, such as a string, gives the reply for the name "undefined".

## Model

| member | source | states |
|---|---|---|
| Strings.Split | src/objects/command.ts:5 | `split(' ')` always yields at least one piece, and no piece holds the separator |
| Strings.Join | src/objects/command.ts:10 | `join(sep)`: the first part begins the result; `Strings.JoinSplit` and `Strings.SplitJoin` tie it to `split` in both directions |
| Strings.JoinSplit | src/objects/command.ts:5 | joining the pieces of a split with the separator gives back the original text |
| Strings.SplitJoin | src/objects/command.ts:10 | splitting a join of one or more separator-free parts gives back exactly those parts |
| CommandParser.AfterFirst | src/objects/command.ts:5 | `slice(1)`: a non-empty text is its first character followed by the result; "" gives "" |
| CommandParser.DropEmpty | src/objects/command.ts:5 | the filter keeps only non-empty pieces, each drawn from the input, and never lengthens the list |
| CommandParser.DropEmptyCounts | src/objects/command.ts:5 | the filter removes every empty piece and keeps every other piece as often as it occurred |
| CommandParser.DropEmptyAppend | src/objects/command.ts:5 | filtering distributes over concatenation, so the tokens keep their relative order |
| CommandParser.DropEmptyKeepsNonEmpty | src/objects/command.ts:5 | a list with no empty piece passes the filter unchanged |
| CommandParser.Tokens | src/objects/command.ts:5 | every token is non-empty and holds no space |
| CommandParser.ScanMatchesSplit | src/objects/command.ts:5 | a character-by-character scanner for maximal space-free runs gives the same tokens as split-then-filter |
| CommandParser.TokensAreRuns | src/objects/command.ts:5 | the tokens of a text are the maximal space-free runs after its first character |
| CommandParser.ScanEmptyIffBlank | src/objects/command.ts:5 | the scanner finds no token exactly when the rest of the text is all spaces |
| CommandParser.ToLower | src/objects/command.ts:9 | `toLowerCase` keeps the length; `CommandParser.ToLowerFacts` carries its other properties |
| CommandParser.ToLowerFacts | src/objects/command.ts:9 | lower-casing leaves no upper-case ASCII letter, maps spaces and only spaces to spaces, is idempotent, and leaves a text without capitals as it is |
| CommandParser.Parse | src/objects/command.ts:5-11 | the constructor's parse fails exactly when there is no token; on success the command is non-empty and there is one argument fewer than tokens; `ParseFields`, `ParseFailsIffBlank` and `ParseJoined` carry the rest |
| CommandParser.FirstCharacterIgnored | src/objects/command.ts:5 | the parse does not depend on the first character, whatever that character is |
| CommandParser.ParseFailsIffBlank | src/objects/command.ts:5-9 | construction fails exactly when every character from the second on is a space |
| CommandParser.ParseFields | src/objects/command.ts:5-11 | on success: `command` is the lower-cased first token, and it is non-empty and space-free; `args` is the tokens after the first, one token fewer than the tokens in all, each non-empty and space-free; `argument` is `args` joined with one space, and re-tokenising `argument` gives `args` back |
| CommandParser.ZeroTokenRetained | src/objects/command.ts:5 | a "0" piece survives the filter as often as it occurs |
| CommandParser.ParseJoined | src/objects/command.ts:5-11 | any prefix character followed by space-joined words parses to the first word lower-cased, the other words, and their join |
| CommandParser.GreetExample | src/objects/command.ts:5-11 | "+greet 0 world" parses to "greet" with arguments ["0", "world"] and argument "0 world" |
| CommandParser.TabStaysInsideToken | src/objects/command.ts:5 | a tab does not split: "+Say\thi x" parses to "say\thi" with argument list ["x"] |
| CommandParser.BarePrefixFails | src/objects/command.ts:5-9 | "+" and "+   " fail to construct |
| CommandParser.WordChars | src/objects/command.ts:24 | the `\W` deletion leaves only word characters and never lengthens the id |
| CommandParser.WordCharsOfWordString | src/objects/command.ts:24 | an id made only of word characters is left as it is |
| CommandParser.WordCharsIdempotent | src/objects/command.ts:23-26 | cleaning twice is cleaning once |
| CommandParser.WordCharsAppend | src/objects/command.ts:24 | cleaning distributes over concatenation, so the kept characters stay in order |
| CommandParser.WordCharsCounts | src/objects/command.ts:24 | every word character is kept as often as it occurred, and every other character is removed |
| CommandParser.Command.Clean | src/objects/command.ts:23-26 | `clean` returns the same object, whose `id` is now the cleaned old `id`; its frame allows no other change |
| CommandParser.Command.Construct | src/objects/command.ts:4-14 | both ids are cleaned, including when the channel and the author are the same object; construction fails exactly when the parse does; on success a fresh Command holds the parsed fields and the message's channel, author, member and guild |
| Registry.Assign | elbie.ts:30 | `Object.assign`: the source's values override the target's; the target's keys keep their places; the source's new keys follow in source order |
| Registry.AssignKeys | elbie.ts:30 | after copying the first n source keys, the values are the target's overridden by those n; the order is the target's order followed by the new ones among them |
| Registry.Build | elbie.ts:28-33 | the fold of `Object.assign` over the modules in load order registers every name of the last module; `BuildKeys`, `BuildLastWriterWins` and `BuildOrderIsNames` carry the rest |
| Registry.BuildCommandList | elbie.ts:28-33 | the `forEach` loop over the modules builds the registry that the fold `Build` specifies |
| Registry.BuildEntriesAreMerged | elbie.ts:28-33 | the built registry holds exactly the modules' command maps united in load order |
| Registry.BuildKeys | elbie.ts:28-33 | a name is in the registry exactly when some module defines it |
| Registry.BuildLastWriterWins | elbie.ts:28-33 | a name maps to the entry of the last module, in load order, that defines it |
| Registry.BuildOrderIsNames | elbie.ts:28-33 | the registry's key order is each module's new names appended in load order |
| Registry.BuildKeepsPositions | elbie.ts:28-33 | loading further modules only appends keys, so redefining a name keeps its place |
| Dispatch.IsCommand | elbie.ts:36-38 | a command starts with '+', and a text that is not a command is empty or starts with another character; `IsCommandIffPrefixed` states the equivalence |
| Dispatch.IsCommandIffPrefixed | elbie.ts:36-38 | a message is a command exactly when its first character is '+'; the empty message is not |
| Dispatch.ErrorReply | elbie.ts:94-97 | the reply starts with the fixed opening and is exactly as long as the opening, the name and the closing; its inverse `ErrorNameOf` is tied to it by the next two rows |
| Dispatch.ErrorReplyRoundTrip | elbie.ts:94-97 | the error reply names the error: the name can be read back out of it |
| Dispatch.ErrorNameOfInverse | elbie.ts:94-97 | every text from which a name can be read is the error reply for that name |
| Dispatch.ErrorRepliesDistinguishable | elbie.ts:94-97 | distinct error names give distinct replies, none equal to the "couldn't understand" reply |
| Dispatch.HelpListing | elbie.ts:100-105 | the push loop over the keys produces the specified help text |
| Dispatch.HelpTextOfEmptyRegistry | elbie.ts:100-105 | an empty registry gets the empty help reply |
| Dispatch.HelpTextLines | elbie.ts:100-105 | when no key or description holds a newline, the help text splits into one line per key, in key order: "name : desc" for a truthy description, else "name" |
| Dispatch.Dispatch | elbie.ts:99-113 | `handler` causes one or two actions; `DispatchIsolatesFailures` and the `Route` lemmas carry its properties |
| Dispatch.Handler | elbie.ts:99-113 | `handler` does what `Dispatch` specifies: "?" gets the help text; a name without an entry gets the TypeError reply; otherwise the handler runs; a throw of a value with a `name` adds one error reply, and a throw of `undefined` or `null` adds a rejection |
| Dispatch.DispatchIsolatesFailures | elbie.ts:94-111 | dispatch sends at most one reply and invokes at most one handler, first; it rejects exactly when a registered handler throws `undefined` or `null`, and then it sends no reply |
| Dispatch.Route | elbie.ts:115-126 | the listener does nothing exactly for messages without the prefix, and causes at most two actions otherwise |
| Dispatch.RouteIgnoresOtherMessages | elbie.ts:115-116 | a message without the prefix causes nothing |
| Dispatch.RouteBlankCommand | elbie.ts:115-117 | a prefix followed only by spaces gets no reply, and the listener rejects with a TypeError |
| Dispatch.RouteHelp | elbie.ts:100-124 | "?" is always answered by the help listing alone, even when a module registered "?" |
| Dispatch.RouteUnknown | elbie.ts:119-124 | a name that is neither "?" nor registered gets exactly the fixed reply, and no handler runs |
| Dispatch.RouteRegistered | elbie.ts:94-121 | a registered name invokes its handler once; a synchronous throw of a value with a `name` adds exactly one error reply naming it; a throw of `undefined` or `null` adds a rejection and no reply; a return adds nothing |
| Dispatch.RouteCallsLastDefiner | elbie.ts:119-121 | against the built registry, routing invokes the handler of the last module that defines the name |
| Dispatch.RouteGreetUnregistered | elbie.ts:119-124 | "+greet 0 world" against a registry without "greet" gets the fixed reply |
| Session.PresenceLabel | elbie.ts:53-65 | the label is the version, "DEV -- " and the version, "CANARY" or "(no locale)"; `ChooseLocale` states which arm gives which |
| Session.ChooseLocale | elbie.ts:53-65 | production shows the version; development shows "DEV -- " and the version; canary shows "CANARY"; any other value, and no value, shows "(no locale)" |
| Session.LocaleOfDefault | elbie.ts:53-65 | the default arm is taken exactly when `BUILD` is unset or is none of the three named builds |
| Session.LabelIdentifiesLocale | elbie.ts:53-65 | for a version that does not collide with the fixed names, the label tells which arm was taken |
| Session.DevelopmentLabelShowsVersion | elbie.ts:58 | a development label carries the version after the marker |
| Session.Reaction | elbie.ts:40-92 | one event causes at most one call, and a login with the token exactly for a disconnect or error event |
| Session.TraceMembers | elbie.ts:40-92 | a call is made exactly when the reaction to some event makes it |
| Session.ExitOnlyOnFailedLogin | elbie.ts:40-48 | `process.exit` is called exactly when the initial login was rejected, and always with the argument 400 |
| Session.ReloginsUseToken | elbie.ts:82-92 | every later login uses the original token, and one happens exactly when a disconnect or error event occurred |
| Session.OneLoginPerReconnect | elbie.ts:82-92 | the number of later logins equals the number of disconnect and error events |
| Session.PresenceIsLabelled | elbie.ts:67-77 | every presence update carries the build's label and the homepage URL |
| Session.Client.Start | elbie.ts:28-40 | start-up builds the registry from the modules and makes exactly one login call, with the token |
| Session.Client.OnInitialLogin | elbie.ts:40-48 | a rejected initial login appends the call `process.exit(400)` and ends the process; a successful one appends nothing |
| Session.Client.OnReady | elbie.ts:50-79 | "ready" appends one presence update with the label and homepage when the client has a user, and nothing otherwise |
| Session.Client.OnDisconnect | elbie.ts:82-85 | "disconnect" appends exactly one login with the original token |
| Session.Client.OnError | elbie.ts:88-92 | "error" appends exactly one login with the original token |
| Session.Client.OnMessage | elbie.ts:115-126 | "message" appends what `Route` specifies; for a command message it cleans the channel's and author's ids, and otherwise it leaves them unchanged |

## Left out

- The discord.js transport is not modelled. `Client`, `login`, `setPresence`
  and `message.reply` are recorded as `Call` and `Action` values. Whether
  Discord accepts them is outside the bot.
- The `instanceof Discord.Message` test at `elbie.ts:116` is not modelled;
  every delivered event is taken to be a message.
- The mongoose connection (`elbie.ts:12-21`) and dotenv are not modelled:
  they are storage and configuration I/O, and the core never reads them.
  The token, `BUILD` and the package version are parameters of
  `Session.Client.Start`.
- Console logging is not modelled, since it only observes.
- The `.catch` on the presence promise only logs, so it is not modelled.
- Asynchronous behaviour is not modelled:
  - `key(cmd)` at `elbie.ts:108` is not awaited, so a handler's later
    promise rejection escapes the `catch`;
  - a re-login after `disconnect` or `error` has no rejection handler;
  - Node's policy for unhandled rejections is not modelled.
  The model records a promise rejection as `Rejected` and goes no further.
- Handlers are opaque (`HandlerId`), and so is the content of the bot modules,
  which are not part of this model. A `Behaviour` abstracts what a handler does.
- `CommandParser.ToLower` folds ASCII letters only. JavaScript's
  `toLowerCase` also folds non-ASCII letters; Unicode case tables are not
  available here.
- `Registry.Assign` models a JavaScript object as an insertion-ordered map.
  JavaScript visits integer-like keys first, in numeric order; that rule is
  not modelled. Keys inherited from `Object.prototype` (such as
  "constructor") are not modelled either.
- `RichEmbed` replies and the `reply` method (`command.ts:27-29`) are not
  modelled, beyond recording the reply text.
- `Session.ExitOnlyOnFailedLogin`: records the argument of `process.exit(400)`.
  On POSIX systems the parent process sees the status 400 mod 256 = 144; that
  truncation belongs to the operating system and is not modelled.
- `CommandParser.Entity` carries only `id`, the one field `clean` touches;
  the other Discord fields of channels and users are not modelled.
- The `Command` class is imported from `./bot_modules/module`, which is not
  part of this model. `src/objects/command.ts` stands in for it.
