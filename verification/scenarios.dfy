/**
 Whole console lines and messages through the classifier and the
 dispatcher, for typical server output.
 */
module Scenarios {
  import opened Wrappers
  import opened Text
  import opened LogEnvelope
  import opened DeathTemplates
  import opened Events
  import opened DeathQuirks
  import opened Handlers

  /** `Steve joined the game` is a login by `Steve`. */
  lemma JoinMessage()
    ensures ClassifyMessage("Steve joined the game") == Login("Steve")
  {
    assert "Steve joined the game" == "Steve" + " joined the game";
    assert IsBareName("Steve");
    assert ParseLogin("Steve joined the game") == Some("Steve");
  }

  /** The join line `[12:34:56] [Server thread/INFO]: Steve joined the game` becomes a login event for `Steve`. */
  lemma JoinLine()
    ensures var line := Layout("12:34:56", "Server thread", "INFO", "Steve joined the game");
      Classify(line) == Some(Event(Envelope(line, "12:34:56", "Server thread", "INFO", "Steve joined the game"), Login("Steve")))
  {
    var line := Layout("12:34:56", "Server thread", "INFO", "Steve joined the game");
    assert Capturable("12:34:56", "Server thread", "INFO", "Steve joined the game");
    ClassifyLayout("12:34:56", "Server thread", "INFO", "Steve joined the game", false);
    assert line + "" == line;
    JoinMessage();
  }

  /** Only a chat message starts with `<`. */
  lemma ChatStartsWithAngle(m: string)
    ensures ChatShaped(m) ==> |m| > 0 && m[0] == '<'
  {
    if ChatShaped(m) {
      var p, t :| IsChatName(p) && m == "<" + p + "> " + t;
      assert m[0] == "<"[0];
    }
  }

  /** `<p> t` with no space in the player or the text is a chat event with exactly those parts. */
  lemma OneWordChat(p: string, t: string)
    requires IsChatName(p) && ' ' !in p && ' ' !in t
    ensures ClassifyMessage("<" + p + "> " + t) == Chat(p, t)
  {
    var m := "<" + p + "> " + t;
    assert AtMostOneSpace(m) by {
      assert forall i :: 0 <= i < |p| ==> m[i + 1] == p[i];
      assert forall i :: 0 <= i < |t| ==> m[|p| + 3 + i] == t[i];
    }
    OneSpaceMatchesNothing(m);
    JoinAndLeaveSpaced(m);
    assert ParseChat(m) == Some((p, t));
  }

  /**
   The death templates come before the chat pattern: a chat text that ends in
   ` was shot by arrow` is read as a death of `<p> x`, not as a chat.
   */
  lemma ChatReadAsDeath(p: string, x: string)
    ensures ClassifyMessage("<" + p + "> " + x + " was shot by arrow") == Death("<" + p + "> " + x, None, None)
  {
    ShotByArrow("<" + p + "> " + x);
  }

  /** A message of two words, not starting with `<`, is a plain event. */
  lemma SavingWorld()
    ensures ClassifyMessage("Saving world") == Generic
  {
    var m := "Saving world";
    assert AtMostOneSpace(m);
    OneSpaceMatchesNothing(m);
    JoinAndLeaveSpaced(m);
    ChatStartsWithAngle(m);
    assert m[0] == 'S';
  }

  /** A line without the envelope makes `process_server_output` raise before any handler runs. */
  lemma GarbageLine(reg: Registry, matches: (string, string) -> bool)
    ensures ProcessLine(reg, "garbage line with no brackets", matches)
         == Failure("Could not parse line: " + "garbage line with no brackets")
  {
    var line := "garbage line with no brackets";
    assert line[0] == 'g';
    assert Parse(line).None?;
    ParseAcceptsExactlyLogLines(line);
  }

  /**
   A handler for `^!help$` and an unconditional one, registered in that
   order, both run for the chat text `!help`, in that order.
   */
  lemma HelpAndCatchAll(ev: Event, help: HandlerId, all: HandlerId, matches: (string, string) -> bool)
    requires ev.body.Chat? && ev.body.chat == "!help"
    requires matches("^!help$", "!help") && DefaultAcceptsAll(matches)
    ensures var reg := OnChat(OnChat(NoHandlers, "^!help$", None, None, help), DefaultPattern, None, None, all);
      Dispatch(reg, ev, matches) == [help, all]
  {
    var reg1 := OnChat(NoHandlers, "^!help$", None, None, help);
    OnChatDispatch(NoHandlers, "^!help$", None, None, help, ev, matches);
    OnChatDispatch(reg1, DefaultPattern, None, None, all, ev, matches);
    assert '\n' !in "!help";
  }
}
