/**
 * The command parser of src/objects/command.ts: the text of a message is
 * stripped of its first character, split on single spaces, emptied of empty
 * pieces, and the surviving tokens become the command name (lower-cased),
 * the argument list and the re-joined argument string. The static `clean`
 * strips every non-word character from an object's `id` in place.
 */
module CommandParser {
  import opened Wrappers
  import opened Strings

  /** The one character the tokeniser splits on; tabs and newlines are ordinary characters. */
  const SPACE: char := ' '

  /** `s.slice(1)`: everything after the first character; "" stays "". */
  function AfterFirst(s: string): (r: string)
    ensures s != [] ==> s == [s[0]] + r
    ensures s == [] ==> r == []
  {
    if s == [] then [] else s[1..]
  }

  /** The filter `element || element === '0'`: JavaScript truthiness keeps every non-empty string. */
  predicate Kept(element: string) {
    element != "" || element == "0"
  }

  /** The `filter` step: the pieces that `Kept` accepts, in their original order. */
  function DropEmpty(pieces: seq<string>): (r: seq<string>)
    ensures forall i :: 0 <= i < |r| ==> r[i] != "" && r[i] in pieces
    ensures |r| <= |pieces|
    decreases |pieces|
  {
    if pieces == [] then []
    else (if Kept(pieces[0]) then [pieces[0]] else []) + DropEmpty(pieces[1..])
  }

  /** The `content` array of the constructor (command.ts line 5). */
  function Tokens(text: string): (tokens: seq<string>)
    ensures forall i :: 0 <= i < |tokens| ==> tokens[i] != "" && SPACE !in tokens[i]
  {
    var pieces := Split(AfterFirst(text), SPACE);
    var r := DropEmpty(pieces);
    assert forall i :: 0 <= i < |r| ==> SPACE !in r[i] by {
      forall i | 0 <= i < |r| ensures SPACE !in r[i] {
        var j :| 0 <= j < |pieces| && pieces[j] == r[i];
      }
    }
    r
  }

  /**
   * A reference tokeniser, independent of split and filter: it reads the text
   * one character at a time, collects the current run of non-space characters
   * in `run`, and closes the run (if it is non-empty) at each space and at the end.
   */
  function Scan(s: string, run: string): seq<string>
    decreases |s|
  {
    if s == [] then (if run == "" then [] else [run])
    else if s[0] == SPACE then (if run == "" then [] else [run]) + Scan(s[1..], "")
    else Scan(s[1..], run + [s[0]])
  }

  /** Filtering the split pieces gives exactly the maximal non-empty runs of non-space characters. */
  lemma {:induction false} ScanMatchesSplit(s: string, run: string)
    requires SPACE !in run
    ensures Scan(s, run) == DropEmpty(Split(run + s, SPACE))
    decreases |s|
  {
    if s == [] {
      SplitAfterRun(run, "", SPACE);
      assert run + s == run + "" == run;
      assert DropEmpty([run]) == (if Kept(run) then [run] else []) + DropEmpty([]);
    } else if s[0] == SPACE {
      ScanMatchesSplit(s[1..], "");
      assert s == [SPACE] + s[1..];
      SplitAfterRun(run, s, SPACE);
      SplitAfterSeparator(s[1..], SPACE);
      var rest := Split(s[1..], SPACE);
      assert Split(s, SPACE) == [""] + rest;
      assert run + "" == run;
      assert Split(run + s, SPACE) == [run] + rest;
      assert ([run] + rest)[1..] == rest;
      assert "" + s[1..] == s[1..];
    } else {
      ScanMatchesSplit(s[1..], run + [s[0]]);
      assert run + s == (run + [s[0]]) + s[1..];
    }
  }

  /** The tokens of a message are the maximal runs of non-space characters after its first character. */
  lemma TokensAreRuns(text: string)
    ensures Tokens(text) == Scan(AfterFirst(text), "")
  {
    ScanMatchesSplit(AfterFirst(text), "");
    assert "" + AfterFirst(text) == AfterFirst(text);
  }

  /** The reference tokeniser finds nothing exactly when the text holds only spaces. */
  lemma {:induction false} ScanEmptyIffBlank(s: string, run: string)
    ensures Scan(s, run) == [] <==> run == "" && forall i :: 0 <= i < |s| ==> s[i] == SPACE
    decreases |s|
  {
    if s != [] {
      if s[0] == SPACE {
        ScanEmptyIffBlank(s[1..], "");
        assert forall i :: 1 <= i < |s| ==> s[i] == s[1..][i - 1];
      } else {
        ScanEmptyIffBlank(s[1..], run + [s[0]]);
      }
    }
  }

  /** The filter is a homomorphism over concatenation, so the relative order of pieces is kept. */
  lemma {:induction false} DropEmptyAppend(a: seq<string>, b: seq<string>)
    ensures DropEmpty(a + b) == DropEmpty(a) + DropEmpty(b)
    decreases |a|
  {
    if a != [] {
      DropEmptyAppend(a[1..], b);
      assert (a + b)[0] == a[0];
      assert (a + b)[1..] == a[1..] + b;
      var head := if Kept(a[0]) then [a[0]] else [];
      assert DropEmpty(a + b) == head + DropEmpty(a[1..] + b);
      assert DropEmpty(a) == head + DropEmpty(a[1..]);
      AppendAssociative(head, DropEmpty(a[1..]), DropEmpty(b));
    } else {
      assert a + b == b;
    }
  }

  /** Every non-empty piece, `"0"` included, survives the filter as often as it occurs. */
  lemma {:induction false} DropEmptyCounts(pieces: seq<string>, p: string)
    ensures multiset(DropEmpty(pieces))[p] == if p == "" then 0 else multiset(pieces)[p]
    decreases |pieces|
  {
    if pieces != [] {
      DropEmptyCounts(pieces[1..], p);
      assert pieces == [pieces[0]] + pieces[1..];
      var head := if Kept(pieces[0]) then [pieces[0]] else [];
      assert DropEmpty(pieces) == head + DropEmpty(pieces[1..]);
      assert multiset(DropEmpty(pieces)) == multiset(head) + multiset(DropEmpty(pieces[1..]));
      assert multiset(pieces) == multiset([pieces[0]]) + multiset(pieces[1..]);
    }
  }

  /** A list of non-empty strings passes the filter unchanged. */
  lemma {:induction false} DropEmptyKeepsNonEmpty(pieces: seq<string>)
    requires forall i :: 0 <= i < |pieces| ==> pieces[i] != ""
    ensures DropEmpty(pieces) == pieces
    decreases |pieces|
  {
    if pieces != [] {
      DropEmptyKeepsNonEmpty(pieces[1..]);
      assert pieces == [pieces[0]] + pieces[1..];
    }
  }

  /** `toLowerCase` of one character, on the ASCII letters (see README, "Left out"). */
  function LowerChar(c: char): char {
    if 'A' <= c <= 'Z' then (c as int + 32) as char else c
  }

  /** `s.toLowerCase()`, character by character. */
  function ToLower(s: string): (r: string)
    ensures |r| == |s|
  {
    seq(|s|, i requires 0 <= i < |s| => LowerChar(s[i]))
  }

  /**
   * Lower-casing leaves no upper-case letter, maps spaces and only spaces to
   * spaces, is idempotent, and leaves a text without upper-case letters as it is.
   */
  lemma ToLowerFacts(s: string)
    ensures forall i :: 0 <= i < |s| ==> !('A' <= ToLower(s)[i] <= 'Z')
    ensures forall i :: 0 <= i < |s| ==> (ToLower(s)[i] == SPACE <==> s[i] == SPACE)
    ensures ToLower(ToLower(s)) == ToLower(s)
    ensures (forall i :: 0 <= i < |s| ==> !('A' <= s[i] <= 'Z')) ==> ToLower(s) == s
  {
  }

  /** The three parsed fields of a Command. */
  datatype Parsed = Parsed(command: string, args: seq<string>, argument: string)

  /** Why construction fails: `content[0]` is undefined, so `.toLowerCase()` throws a TypeError. */
  datatype ParseError = NoFirstToken

  /** The constructor's parsing (command.ts lines 5 and 9-11). */
  function Parse(text: string): (r: Result<Parsed, ParseError>)
    ensures r.Err? <==> Tokens(text) == []
    ensures r.Ok? ==> |r.value.args| + 1 == |Tokens(text)| && r.value.command != ""
  {
    var content := Tokens(text);
    if content == [] then Err(NoFirstToken)
    else Ok(Parsed(ToLower(content[0]), content[1..], Join(content[1..], [SPACE])))
  }

  /** The first character is dropped whatever it is: only the rest of the text decides the parse. */
  lemma FirstCharacterIgnored(c: char, d: char, rest: string)
    ensures Parse([c] + rest) == Parse([d] + rest)
  {
    assert AfterFirst([c] + rest) == rest == AfterFirst([d] + rest);
  }

  /** Construction fails exactly when nothing but spaces follows the first character. */
  lemma ParseFailsIffBlank(text: string)
    ensures Parse(text).Err? <==> forall i :: 1 <= i < |text| ==> text[i] == SPACE
  {
    TokensAreRuns(text);
    var rest := AfterFirst(text);
    ScanEmptyIffBlank(rest, "");
    assert forall i :: 1 <= i < |text| ==> text[i] == rest[i - 1];
    assert forall i :: 0 <= i < |rest| ==> rest[i] == text[i + 1];
  }

  /**
   * A successful parse: the name is the lower-cased first token; the arguments are
   * the remaining tokens in order, none empty and none holding a space; and the
   * argument string, split and filtered again, gives back exactly the arguments.
   */
  lemma ParseFields(text: string)
    requires Parse(text).Ok?
    ensures var p := Parse(text).value;
      && |p.args| + 1 == |Tokens(text)|
      && p.command == ToLower(Tokens(text)[0])
      && p.command != "" && SPACE !in p.command
      && p.args == Tokens(text)[1..]
      && (forall i :: 0 <= i < |p.args| ==> p.args[i] != "" && SPACE !in p.args[i])
      && p.argument == Join(p.args, [SPACE])
      && DropEmpty(Split(p.argument, SPACE)) == p.args
  {
    var p := Parse(text).value;
    var first := Tokens(text)[0];
    ToLowerFacts(first);
    assert SPACE !in p.command by {
      forall i | 0 <= i < |p.command| ensures p.command[i] != SPACE {
        assert first[i] != SPACE;
      }
    }
    if p.args == [] {
      assert Split("", SPACE) == [""];
    } else {
      SplitJoin(p.args, SPACE);
      DropEmptyKeepsNonEmpty(p.args);
    }
  }

  /** A token `"0"` is never dropped: it occurs among the tokens as often as among the pieces. */
  lemma ZeroTokenRetained(text: string)
    ensures multiset(Tokens(text))["0"] == multiset(Split(AfterFirst(text), SPACE))["0"]
  {
    DropEmptyCounts(Split(AfterFirst(text), SPACE), "0");
  }

  /**
   * Parsing inverts formatting: a prefix character followed by non-empty,
   * space-free words joined with single spaces parses back into those words.
   */
  lemma ParseJoined(c: char, words: seq<string>)
    requires |words| >= 1
    requires forall i :: 0 <= i < |words| ==> words[i] != "" && SPACE !in words[i]
    ensures Parse([c] + Join(words, [SPACE])) == Ok(Parsed(ToLower(words[0]), words[1..], Join(words[1..], [SPACE])))
  {
    var text := [c] + Join(words, [SPACE]);
    assert AfterFirst(text) == Join(words, [SPACE]);
    SplitJoin(words, SPACE);
    DropEmptyKeepsNonEmpty(words);
    assert Tokens(text) == words;
  }

  /** "+greet 0 world" is the prefix followed by its three words joined with spaces. */
  lemma GreetWords(words: seq<string>)
    requires words == ["greet", "0", "world"]
    ensures ['+'] + Join(words, [SPACE]) == "+greet 0 world"
    ensures words[1..] == ["0", "world"] && Join(words[1..], [SPACE]) == "0 world"
  {
    assert words[1..] == ["0", "world"];
    assert Join(["world"], " ") == "world";
    assert Join(["0", "world"], " ") == "0 world";
  }

  /** The words of "+greet 0 world" are tokens, and the first has no capital letter. */
  lemma GreetWordsAreTokens(words: seq<string>)
    requires words == ["greet", "0", "world"]
    ensures forall i :: 0 <= i < |words| ==> words[i] != "" && SPACE !in words[i]
    ensures forall i :: 0 <= i < |words[0]| ==> !('A' <= words[0][i] <= 'Z')
  {
  }

  /** A text without upper-case ASCII letters is its own lower-case form. */
  lemma LowerCaseUnchanged(s: string)
    requires forall i :: 0 <= i < |s| ==> !('A' <= s[i] <= 'Z')
    ensures ToLower(s) == s
  {
  }

  /** "Say\thi" lower-cases to "say\thi": only the capital S changes. */
  lemma LowerSay(s: string)
    requires s == "Say\thi"
    ensures ToLower(s) == "say\thi"
  {
    var tail := "ay\thi";
    assert s == ['S'] + tail;
    LowerCaseUnchanged(tail);
    assert ToLower(s) == [LowerChar('S')] + ToLower(tail);
  }

  /** The example `+greet 0 world`: name "greet", arguments "0" and "world". */
  lemma GreetExample(text: string)
    requires text == "+greet 0 world"
    ensures Parse(text) == Ok(Parsed("greet", ["0", "world"], "0 world"))
  {
    var words := ["greet", "0", "world"];
    GreetWords(words);
    GreetWordsAreTokens(words);
    ParseJoined('+', words);
    LowerCaseUnchanged(words[0]);
  }

  /** "+Say\thi x" is the prefix followed by its two words joined with a space. */
  lemma TabWords(words: seq<string>)
    requires words == ["Say\thi", "x"]
    ensures ['+'] + Join(words, [SPACE]) == "+Say\thi x"
    ensures words[1..] == ["x"] && Join(words[1..], [SPACE]) == "x"
  {
    assert words[1..] == ["x"];
    assert Join(["x"], " ") == "x";
  }

  /** The words of "+Say\thi x" are tokens: the tab is not a space. */
  lemma TabWordsAreTokens(words: seq<string>)
    requires words == ["Say\thi", "x"]
    ensures forall i :: 0 <= i < |words| ==> words[i] != "" && SPACE !in words[i]
  {
  }

  /** Tabs are not separators: `+Say\thi x` names the command "say\thi". */
  lemma TabStaysInsideToken(text: string)
    requires text == "+Say\thi x"
    ensures Parse(text) == Ok(Parsed("say\thi", ["x"], "x"))
  {
    var words := ["Say\thi", "x"];
    TabWords(words);
    TabWordsAreTokens(words);
    ParseJoined('+', words);
    LowerSay(words[0]);
  }

  /** A bare prefix, or a prefix followed only by spaces, cannot be constructed. */
  lemma BarePrefixFails()
    ensures Parse("+").Err? && Parse("+   ").Err?
  {
    ParseFailsIffBlank("+");
    ParseFailsIffBlank("+   ");
  }

  /** The word characters of the regular expression `\w`: `[A-Za-z0-9_]`. */
  predicate IsWordChar(c: char) {
    'A' <= c <= 'Z' || 'a' <= c <= 'z' || '0' <= c <= '9' || c == '_'
  }

  /** `s.replace(/\W/g, '')`: the word characters of `s`, in order. */
  function WordChars(s: string): (r: string)
    ensures forall i :: 0 <= i < |r| ==> IsWordChar(r[i])
    ensures |r| <= |s|
    decreases |s|
  {
    if s == [] then []
    else (if IsWordChar(s[0]) then [s[0]] else []) + WordChars(s[1..])
  }

  /** A string made of word characters only is unchanged. */
  lemma {:induction false} WordCharsOfWordString(s: string)
    requires forall i :: 0 <= i < |s| ==> IsWordChar(s[i])
    ensures WordChars(s) == s
    decreases |s|
  {
    if s != [] {
      WordCharsOfWordString(s[1..]);
      assert s == [s[0]] + s[1..];
    }
  }

  /** Cleaning twice is cleaning once. */
  lemma WordCharsIdempotent(s: string)
    ensures WordChars(WordChars(s)) == WordChars(s)
  {
    WordCharsOfWordString(WordChars(s));
  }

  /** Cleaning distributes over concatenation, so the kept characters stay in their order. */
  lemma {:induction false} WordCharsAppend(a: string, b: string)
    ensures WordChars(a + b) == WordChars(a) + WordChars(b)
    decreases |a|
  {
    if a == [] {
      assert a + b == b;
    } else {
      WordCharsAppend(a[1..], b);
      assert (a + b)[0] == a[0];
      assert (a + b)[1..] == a[1..] + b;
      var head := if IsWordChar(a[0]) then [a[0]] else [];
      assert WordChars(a + b) == head + WordChars(a[1..] + b);
      assert WordChars(a) == head + WordChars(a[1..]);
      AppendAssociative(head, WordChars(a[1..]), WordChars(b));
    }
  }

  /** Every word character is kept as often as it occurs, every other character is removed. */
  lemma {:induction false} WordCharsCounts(s: string, c: char)
    ensures multiset(WordChars(s))[c] == if IsWordChar(c) then multiset(s)[c] else 0
    decreases |s|
  {
    if s != [] {
      WordCharsCounts(s[1..], c);
      assert s == [s[0]] + s[1..];
    }
  }

  /** A discord.js object that carries an identifier: a channel, a user, a guild member, a guild. */
  class Entity {
    var id: string

    constructor (id: string)
      ensures this.id == id
    {
      this.id := id;
    }
  }

  /** The part of a discord.js message the constructor reads. */
  class Message {
    var content: string
    var channel: Entity
    var author: Entity
    var member: Entity?
    var guild: Entity?

    constructor (content: string, channel: Entity, author: Entity, member: Entity?, guild: Entity?)
      ensures this.content == content && this.channel == channel && this.author == author
      ensures this.member == member && this.guild == guild
    {
      this.content := content;
      this.channel := channel;
      this.author := author;
      this.member := member;
      this.guild := guild;
    }
  }

  /** A parsed command together with the context of the message it came from. */
  class Command {
    var channel: Entity
    var auth: Entity
    var member: Entity?
    var command: string
    var argument: string
    var args: seq<string>
    var server: Entity?
    var message: Message

    /** The field assignments of the constructor, once the parse has succeeded. */
    constructor Assemble(m: Message, channel: Entity, auth: Entity, p: Parsed)
      ensures this.channel == channel && this.auth == auth && this.member == m.member
      ensures this.server == m.guild && this.message == m
      ensures Parts() == p
    {
      this.channel := channel;
      this.auth := auth;
      this.member := m.member;
      this.command := p.command;
      this.argument := p.argument;
      this.args := p.args;
      this.server := m.guild;
      this.message := m;
    }

    /** The parsed fields of this command. */
    function Parts(): Parsed
      reads this
    {
      Parsed(command, args, argument)
    }

    /** `Command.clean`: in place, the object's `id` keeps only its word characters; nothing else changes. */
    static method Clean(e: Entity) returns (r: Entity)
      modifies e`id
      ensures r == e
      ensures e.id == WordChars(old(e.id))
    {
      e.id := WordChars(e.id);
      r := e;
    }

    /**
     * `new Command(message)`: the channel and the author are cleaned before the
     * name is read, so their ids are cleaned even when construction then throws
     * (also when channel and author are one object, because cleaning is idempotent).
     */
    static method Construct(m: Message) returns (r: Result<Command, ParseError>)
      modifies m.channel`id, m.author`id
      ensures m.channel.id == WordChars(old(m.channel.id))
      ensures m.author.id == WordChars(old(m.author.id))
      ensures r.Err? <==> Parse(m.content).Err?
      ensures r.Ok? ==> && fresh(r.value)
                        && r.value.Parts() == Parse(m.content).value
                        && r.value.channel == m.channel && r.value.auth == m.author
                        && r.value.member == m.member && r.value.server == m.guild
                        && r.value.message == m
    {
      var content := Tokens(m.content);
      ghost var channelId := m.channel.id;
      var channel := Clean(m.channel);
      var auth := Clean(m.author);
      if m.channel == m.author {
        WordCharsIdempotent(channelId);
      }
      if content == [] {
        return Err(NoFirstToken);
      }
      var p := Parsed(ToLower(content[0]), content[1..], Join(content[1..], [SPACE]));
      var c := new Command.Assemble(m, channel, auth, p);
      r := Ok(c);
    }
  }
}
