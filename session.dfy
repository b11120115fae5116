/**
 * The connection life cycle of elbie.ts: the initial login and its failure
 * exit, the presence set on "ready", the re-login on every "disconnect" and
 * "error" event, and the message listener. The discord.js client is reduced
 * to the calls the bot makes on it; the events it fires become method calls
 * on a `Client` that records those calls.
 */
module Session {
  import opened Wrappers
  import opened Strings
  import opened CommandParser
  import opened Registry
  import opened Dispatch

  /** The URL published with the presence. */
  const HOMEPAGE: string := "https://github.com/TheSamLloyd/Elbie"
  /** The argument the bot passes to `process.exit` after a failed initial login. */
  const LOGIN_FAILED_EXIT: int := 400

  /** A call the bot makes into the discord.js client or the process. */
  datatype Call = Login(token: Option<string>) | SetPresence(name: string, url: string) | Exit(code: int)

  /** An event the client or the initial login promise delivers. */
  datatype Event = InitialLoginSettled(succeeded: bool) | Ready(hasUser: bool) | Disconnect | TransportError

  /** The four arms of the switch on `BUILD`. */
  datatype Locale = Production | Development | Canary | NoLocale

  /** Which arm the `BUILD` environment variable selects; an unset variable takes the default arm. */
  function LocaleOf(env: Option<string>): Locale {
    if env == Some("production") then Production
    else if env == Some("development") then Development
    else if env == Some("canary") then Canary
    else NoLocale
  }

  /** The presence name each arm publishes. */
  function Label(locale: Locale, version: string): string {
    match locale
    case Production => version
    case Development => "DEV -- " + version
    case Canary => "CANARY"
    case NoLocale => "(no locale)"
  }

  /** The presence name set on "ready". */
  function PresenceLabel(env: Option<string>, version: string): (r: string)
    ensures r == version || r == "DEV -- " + version || r == "CANARY" || r == "(no locale)"
  {
    Label(LocaleOf(env), version)
  }

  /** The switch on `BUILD` that assigns `locale` when the client is ready. */
  method ChooseLocale(env: Option<string>, version: string) returns (locale: string)
    ensures env == Some("production") ==> locale == version
    ensures env == Some("development") ==> locale == "DEV -- " + version
    ensures env == Some("canary") ==> locale == "CANARY"
    ensures env !in {Some("production"), Some("development"), Some("canary")} ==> locale == "(no locale)"
    ensures locale == PresenceLabel(env, version)
  {
    match env {
      case Some("production") =>
        locale := version;
      case Some("development") =>
        locale := "DEV -- " + version;
      case Some("canary") =>
        locale := "CANARY";
      case _ =>
        locale := "(no locale)";
    }
  }

  /** Only the three named builds leave the default arm: unset and every other value show "(no locale)". */
  lemma LocaleOfDefault(env: Option<string>)
    ensures LocaleOf(env) == NoLocale <==>
            env !in {Some("production"), Some("development"), Some("canary")}
  {
  }

  /**
   * A version that is not itself one of the fixed names and does not start
   * with "DEV -- " gives each arm its own presence name, so the name tells
   * which build is running.
   */
  lemma LabelIdentifiesLocale(l1: Locale, l2: Locale, version: string)
    requires version != "CANARY" && version != "(no locale)"
    requires !("DEV -- " <= version)
    ensures Label(l1, version) == Label(l2, version) ==> l1 == l2
  {
    var dev := "DEV -- " + version;
    assert "DEV -- " <= dev;
    assert dev != "CANARY" by { assert dev[0] != "CANARY"[0]; }
    assert dev != "(no locale)" by { assert dev[0] != "(no locale)"[0]; }
  }

  /** A development build shows its version after the "DEV -- " marker. */
  lemma DevelopmentLabelShowsVersion(env: Option<string>, version: string)
    requires env == Some("development")
    ensures PresenceLabel(env, version)[|"DEV -- "|..] == version
  {
  }

  /**
   * The reaction to one event: a failed initial login calls `process.exit(400)`
   * and a successful one only logs; "ready" publishes the presence when the
   * client has a user; "disconnect" and "error" log in again with the same token.
   */
  function Reaction(e: Event, token: Option<string>, presence: string): (r: seq<Call>)
    ensures |r| <= 1
    ensures Login(token) in r <==> e.Disconnect? || e.TransportError?
  {
    match e
    case InitialLoginSettled(succeeded) => if succeeded then [] else [Exit(LOGIN_FAILED_EXIT)]
    case Ready(hasUser) => if hasUser then [SetPresence(presence, HOMEPAGE)] else []
    case Disconnect => [Login(token)]
    case TransportError => [Login(token)]
  }

  /** The calls made in reaction to a sequence of events, in order. */
  function Trace(events: seq<Event>, token: Option<string>, presence: string): seq<Call>
    decreases |events|
  {
    if events == [] then []
    else Trace(events[..|events| - 1], token, presence) + Reaction(events[|events| - 1], token, presence)
  }

  /** A call is in the trace exactly when some event's reaction makes it. */
  lemma {:induction false} TraceMembers(events: seq<Event>, token: Option<string>, presence: string, c: Call)
    ensures c in Trace(events, token, presence) <==>
            exists i :: 0 <= i < |events| && c in Reaction(events[i], token, presence)
    decreases |events|
  {
    if events != [] {
      var n := |events| - 1;
      var init := events[..n];
      TraceMembers(init, token, presence, c);
      if c in Trace(init, token, presence) {
        var i :| 0 <= i < |init| && c in Reaction(init[i], token, presence);
        assert events[i] == init[i];
      }
      if exists i :: 0 <= i < |events| && c in Reaction(events[i], token, presence) {
        var i :| 0 <= i < |events| && c in Reaction(events[i], token, presence);
        if i < n {
          assert init[i] == events[i];
        }
      }
    }
  }

  /** `process.exit` is called only after a failed initial login, and always with 400. */
  lemma ExitOnlyOnFailedLogin(events: seq<Event>, token: Option<string>, presence: string, code: int)
    ensures Exit(code) in Trace(events, token, presence) <==>
            code == LOGIN_FAILED_EXIT && InitialLoginSettled(false) in events
  {
    TraceMembers(events, token, presence, Exit(code));
    if InitialLoginSettled(false) in events {
      var i :| 0 <= i < |events| && events[i] == InitialLoginSettled(false);
      assert Exit(LOGIN_FAILED_EXIT) in Reaction(events[i], token, presence);
    }
  }

  /**
   * Every login after the first uses the same token, and there is one exactly
   * when some "disconnect" or "error" event occurred.
   */
  lemma ReloginsUseToken(events: seq<Event>, token: Option<string>, presence: string, t: Option<string>)
    ensures Login(t) in Trace(events, token, presence) <==>
            t == token && (Disconnect in events || TransportError in events)
  {
    TraceMembers(events, token, presence, Login(t));
    if t == token && Disconnect in events {
      var i :| 0 <= i < |events| && events[i] == Disconnect;
      assert Login(t) in Reaction(events[i], token, presence);
    }
    if t == token && TransportError in events {
      var i :| 0 <= i < |events| && events[i] == TransportError;
      assert Login(t) in Reaction(events[i], token, presence);
    }
  }

  /** The number of login calls. */
  function Logins(calls: seq<Call>): nat
    decreases |calls|
  {
    if calls == [] then 0
    else Logins(calls[..|calls| - 1]) + (if calls[|calls| - 1].Login? then 1 else 0)
  }

  lemma {:induction false} LoginsAppend(a: seq<Call>, b: seq<Call>)
    ensures Logins(a + b) == Logins(a) + Logins(b)
    decreases |b|
  {
    if b == [] {
      assert a + b == a;
    } else {
      var n := |b| - 1;
      LoginsAppend(a, b[..n]);
      assert (a + b)[..|a + b| - 1] == a + b[..n];
    }
  }

  /** The number of "disconnect" and "error" events. */
  function Reconnects(events: seq<Event>): nat
    decreases |events|
  {
    if events == [] then 0
    else Reconnects(events[..|events| - 1]) + (if events[|events| - 1].Disconnect? || events[|events| - 1].TransportError? then 1 else 0)
  }

  /** One event's reaction logs in once for "disconnect" and "error" and never otherwise. */
  lemma ReactionLogins(e: Event, token: Option<string>, presence: string)
    ensures Logins(Reaction(e, token, presence)) == if e.Disconnect? || e.TransportError? then 1 else 0
  {
    var r := Reaction(e, token, presence);
    if r != [] {
      assert r[..|r| - 1] == [];
    }
  }

  /** Each "disconnect" and each "error" event causes exactly one new login, and nothing else does. */
  lemma {:induction false} OneLoginPerReconnect(events: seq<Event>, token: Option<string>, presence: string)
    ensures Logins(Trace(events, token, presence)) == Reconnects(events)
    decreases |events|
  {
    if events != [] {
      var n := |events| - 1;
      OneLoginPerReconnect(events[..n], token, presence);
      LoginsAppend(Trace(events[..n], token, presence), Reaction(events[n], token, presence));
      ReactionLogins(events[n], token, presence);
    }
  }

  /** The presence, whenever it is set, carries the build's label and the homepage. */
  lemma PresenceIsLabelled(events: seq<Event>, token: Option<string>, presence: string, l: string, url: string)
    requires SetPresence(l, url) in Trace(events, token, presence)
    ensures l == presence && url == HOMEPAGE
  {
    TraceMembers(events, token, presence, SetPresence(l, url));
  }

  /** The bot process: its configuration, its command registry and what it has done so far. */
  class Client {
    const token: Option<string>
    const env: Option<string>
    const version: string
    const commandList: Table
    /** The calls made into the client and the process, in order. */
    var calls: seq<Call>
    /** What the message listener did, message after message. */
    var actions: seq<Action>
    var loginSettled: bool
    var exited: bool
    ghost var history: seq<Event>

    /** The calls are the initial login followed by the reactions to the events so far. */
    ghost predicate Valid()
      reads this
    {
      calls == [Login(token)] + Trace(history, token, PresenceLabel(env, version))
    }

    /** Start-up: the registry is built from the modules, then the initial login is made. */
    constructor Start(token: Option<string>, env: Option<string>, version: string, modules: seq<BotModule>)
      ensures Valid()
      ensures this.token == token && this.env == env && this.version == version
      ensures commandList == Build(modules)
      ensures calls == [Login(token)] && actions == [] && history == []
      ensures !loginSettled && !exited
    {
      this.token := token;
      this.env := env;
      this.version := version;
      var table := BuildCommandList(modules);
      commandList := table;
      calls := [Login(token)];
      actions := [];
      loginSettled := false;
      exited := false;
      history := [];
    }

    /** Records an event and the calls it caused. */
    method Record(e: Event, made: seq<Call>)
      requires Valid()
      requires made == Reaction(e, token, PresenceLabel(env, version))
      modifies this`calls, this`history
      ensures Valid()
      ensures calls == old(calls) + made && history == old(history) + [e]
    {
      calls := calls + made;
      history := history + [e];
      assert history[..|history| - 1] == old(history);
    }

    /** The initial login promise settles; a rejection calls `process.exit(400)`. */
    method OnInitialLogin(succeeded: bool)
      requires Valid() && !loginSettled && !exited
      modifies this`calls, this`history, this`loginSettled, this`exited
      ensures Valid() && loginSettled && exited == !succeeded
      ensures calls == old(calls) + (if succeeded then [] else [Exit(LOGIN_FAILED_EXIT)])
      ensures history == old(history) + [InitialLoginSettled(succeeded)]
    {
      loginSettled := true;
      if succeeded {
        Record(InitialLoginSettled(succeeded), []);
      } else {
        Record(InitialLoginSettled(succeeded), [Exit(LOGIN_FAILED_EXIT)]);
        exited := true;
      }
    }

    /** "ready": the build's label is chosen and, when the client has a user, published with the homepage. */
    method OnReady(hasUser: bool)
      requires Valid() && !exited
      modifies this`calls, this`history
      ensures Valid()
      ensures calls == old(calls) + (if hasUser then [SetPresence(PresenceLabel(env, version), HOMEPAGE)] else [])
      ensures history == old(history) + [Ready(hasUser)]
    {
      var locale := ChooseLocale(env, version);
      if hasUser {
        Record(Ready(hasUser), [SetPresence(locale, HOMEPAGE)]);
      } else {
        Record(Ready(hasUser), []);
      }
    }

    /** "disconnect": log in again with the same token. */
    method OnDisconnect()
      requires Valid() && !exited
      modifies this`calls, this`history
      ensures Valid()
      ensures calls == old(calls) + [Login(token)] && history == old(history) + [Disconnect]
    {
      Record(Disconnect, [Login(token)]);
    }

    /** "error": log in again with the same token. */
    method OnError()
      requires Valid() && !exited
      modifies this`calls, this`history
      ensures Valid()
      ensures calls == old(calls) + [Login(token)] && history == old(history) + [TransportError]
    {
      Record(TransportError, [Login(token)]);
    }

    /**
     * "message": a command message is turned into a Command (which cleans the
     * channel's and author's ids even when it then fails) and routed.
     */
    method OnMessage(m: Message, run: Behaviour)
      requires !exited
      modifies this`actions, m.channel`id, m.author`id
      ensures actions == old(actions) + Route(m.content, commandList, run)
      ensures IsCommand(m.content) ==>
                m.channel.id == WordChars(old(m.channel.id)) && m.author.id == WordChars(old(m.author.id))
      ensures !IsCommand(m.content) ==> m.channel.id == old(m.channel.id) && m.author.id == old(m.author.id)
    {
      if !IsCommand(m.content) {
        return;
      }
      var r := Command.Construct(m);
      if r.Err? {
        actions := actions + [Rejected(TYPE_ERROR)];
        return;
      }
      var cmd := r.value;
      var p := cmd.Parts();
      if p.command == HELP || p.command in commandList.order {
        var done := Handler(p, commandList, run);
        actions := actions + done;
      } else {
        actions := actions + [Reply(NOT_UNDERSTOOD)];
      }
    }
  }
}
