/**
 * Flattening a conversation into the single prompt string handed to the
 * engine: one tagged line per message, then the assistant cue.
 */
module Prompt {
  import opened Schema

  /** The cue that ends every prompt; no newline follows it. */
  const Suffix: string := "[Assistant]:"

  /** The tag a role carries in the prompt. */
  function Tag(r: Role): string {
    match r
    case System => "System"
    case User => "User"
    case Assistant => "Assistant"
  }

  /** What precedes a message's content on its line. */
  function Header(r: Role): string {
    "[" + Tag(r) + "]: "
  }

  /** The prompt line of one message. */
  function Line(m: Message): string {
    Header(m.role) + m.content + "\n"
  }

  /** The lines of all messages, concatenated in conversation order. */
  function Body(ms: seq<Message>): string {
    if ms == [] then "" else Line(ms[0]) + Body(ms[1..])
  }

  /** The prompt for a conversation: its lines, then the assistant cue. */
  function FormatPrompt(ms: seq<Message>): string {
    Body(ms) + Suffix
  }

  /** Builds the prompt by appending to an accumulator, one message at a time. */
  method BuildPrompt(messages: seq<Message>) returns (prompt: string)
    ensures prompt == FormatPrompt(messages)
  {
    prompt := "";
    for i := 0 to |messages|
      invariant prompt == Body(messages[..i])
    {
      var m := messages[i];
      ghost var before := prompt;
      if m.role == System {
        prompt := prompt + ("[System]: " + m.content + "\n");
      } else if m.role == User {
        prompt := prompt + ("[User]: " + m.content + "\n");
      } else if m.role == Assistant {
        prompt := prompt + ("[Assistant]: " + m.content + "\n");
      }
      assert prompt == before + Line(m) by { LineSpelledOut(m); }
      assert Body(messages[..i + 1]) == before + Line(m) by {
        assert messages[..i + 1] == messages[..i] + [m];
        BodySnoc(messages[..i], m);
      }
    }
    assert messages[..|messages|] == messages;
    prompt := prompt + "[Assistant]:";
  }

  /** The body is compositional: the lines of a split conversation are the lines of its parts. */
  lemma {:induction false} BodyAppend(a: seq<Message>, b: seq<Message>)
    ensures Body(a + b) == Body(a) + Body(b)
  {
    if a == [] {
      assert a + b == b;
    } else {
      assert (a + b)[1..] == a[1..] + b;
      BodyAppend(a[1..], b);
    }
  }

  /** Appending a message appends its line. */
  lemma BodySnoc(ms: seq<Message>, m: Message)
    ensures Body(ms + [m]) == Body(ms) + Line(m)
  {
    BodyAppend(ms, [m]);
    assert Body([m]) == Line(m) + Body([]);
  }

  /** The line of each role, spelled out. */
  lemma LineSpelledOut(m: Message)
    ensures m.role == System ==> Line(m) == "[System]: " + m.content + "\n"
    ensures m.role == User ==> Line(m) == "[User]: " + m.content + "\n"
    ensures m.role == Assistant ==> Line(m) == "[Assistant]: " + m.content + "\n"
  {
    match m.role
    case System => assert Header(System) == "[System]: ";
    case User => assert Header(User) == "[User]: ";
    case Assistant => assert Header(Assistant) == "[Assistant]: ";
  }

  /** Formatting a split conversation: both bodies in order, then one cue. */
  lemma FormatAppend(a: seq<Message>, b: seq<Message>)
    ensures FormatPrompt(a + b) == Body(a) + Body(b) + Suffix
  {
    BodyAppend(a, b);
  }

  /** Message i appears intact, right after the lines of the messages before it. */
  lemma MessageAt(ms: seq<Message>, i: nat)
    requires i < |ms|
    ensures FormatPrompt(ms) == Body(ms[..i]) + Line(ms[i]) + Body(ms[i + 1..]) + Suffix
  {
    assert ms == ms[..i] + ([ms[i]] + ms[i + 1..]);
    BodyAppend(ms[..i], [ms[i]] + ms[i + 1..]);
  }

  /** Every prompt ends with the cue, and its last character is the colon of the cue. */
  lemma EndsWithSuffix(ms: seq<Message>)
    ensures var p := FormatPrompt(ms);
      |p| >= |Suffix| && p[|p| - |Suffix|..] == Suffix && p[|p| - 1] == ':'
  {
  }

  /** An empty conversation is prompted with the cue alone. */
  lemma EmptyConversation()
    ensures FormatPrompt([]) == "[Assistant]:"
  {
  }

  /** The cue is an unfinished assistant line: the reply completes it into the next turn. */
  lemma ReplyContinuesPrompt(ms: seq<Message>, reply: string)
    ensures FormatPrompt(ms) + (" " + reply + "\n") == Body(ms + [Message(Assistant, reply)])
  {
    var m := Message(Assistant, reply);
    var rest := " " + reply + "\n";
    BodySnoc(ms, m);
    assert Line(m) == Suffix + rest by {
      LineSpelledOut(m);
      assert "[Assistant]: " == Suffix + " ";
    }
    assert (Body(ms) + Suffix) + rest == Body(ms) + (Suffix + rest);
  }

  function Capitalize(s: string): string {
    if s != [] && 'a' <= s[0] <= 'z' then [(s[0] as int - 32) as char] + s[1..] else s
  }

  /** Each role has its own tag: its JSON literal with the first letter capitalised. */
  lemma TagIsCapitalizedRoleName(r: Role)
    ensures Tag(r) == Capitalize(RoleName(r))
  {
    match r
    case System => assert RoleName(r)[1..] == "ystem";
    case User => assert RoleName(r)[1..] == "ser";
    case Assistant => assert RoleName(r)[1..] == "ssistant";
  }

  lemma TagInjective(r1: Role, r2: Role)
    requires Tag(r1) == Tag(r2)
    ensures r1 == r2
  {
  }

  /** The number of occurrences of `c` in `s`. */
  function Count(s: string, c: char): nat {
    if s == [] then 0 else (if s[0] == c then 1 else 0) + Count(s[1..], c)
  }

  lemma {:induction false} CountAppend(a: string, b: string, c: char)
    ensures Count(a + b, c) == Count(a, c) + Count(b, c)
  {
    if a == [] {
      assert a + b == b;
    } else {
      assert (a + b)[1..] == a[1..] + b;
      CountAppend(a[1..], b, c);
    }
  }

  lemma {:induction false} CountAbsent(s: string, c: char)
    requires c !in s
    ensures Count(s, c) == 0
  {
    if s != [] {
      assert c !in s[1..];
      CountAbsent(s[1..], c);
    }
  }

  /** A message whose content has no newline makes exactly one line. */
  lemma LineHasOneNewline(m: Message)
    requires '\n' !in m.content
    ensures Count(Line(m), '\n') == 1
  {
    assert '\n' !in Header(m.role) by {
      match m.role
      case System => assert Header(System) == "[System]: ";
      case User => assert Header(User) == "[User]: ";
      case Assistant => assert Header(Assistant) == "[Assistant]: ";
    }
    CountAbsent(Header(m.role), '\n');
    CountAbsent(m.content, '\n');
    assert Count("\n", '\n') == 1 by { assert "\n"[1..] == []; }
    CountAppend(Header(m.role), m.content, '\n');
    CountAppend(Header(m.role) + m.content, "\n", '\n');
  }

  /**
   * When no message content contains a newline, the prompt holds exactly one
   * line per message before the cue.
   */
  lemma {:induction false} LineCount(ms: seq<Message>)
    requires forall i :: 0 <= i < |ms| ==> '\n' !in ms[i].content
    ensures Count(FormatPrompt(ms), '\n') == |ms|
  {
    if ms == [] {
      assert FormatPrompt(ms) == Suffix;
      CountAbsent(Suffix, '\n');
    } else {
      LineHasOneNewline(ms[0]);
      assert FormatPrompt(ms) == Line(ms[0]) + FormatPrompt(ms[1..]);
      CountAppend(Line(ms[0]), FormatPrompt(ms[1..]), '\n');
      LineCount(ms[1..]);
    }
  }
}
