/**
 The event classes of mc.py (`LoginEvent`, `LogoutEvent`, `DeathEvent`,
 `ChatEvent` and the plain `ServerEvent`) and the cascade of
 `process_server_output` that tries them in that order on one console line.
 The body parsers look at the envelope's message only, which never holds a
 newline; on such strings the hand-written matchers below agree with the
 regular expressions of mc.py.
 */
module Events {
  import opened Wrappers
  import opened Text
  import opened LogEnvelope
  import opened DeathTemplates

  /** What the specialised class adds to the envelope; `Generic` is a plain `ServerEvent`. */
  datatype Body =
    | Generic
    | Login(player: string)
    | Logout(player: string)
    | Death(player: string, killer: Option<string>, weapon: Option<string>)
    | Chat(player: string, chat: string)

  /** One classified console line. */
  datatype Event = Event(envelope: Envelope, body: Body)

  const JoinedPhrase: string := " joined the game"
  const LeftPhrase: string := " left the game"

  /** `[^\s]+`: the player group of the login and logout patterns. */
  predicate IsBareName(p: string) {
    |p| > 0 && forall i :: 0 <= i < |p| ==> !IsSpace(p[i])
  }

  /** `[^>]+`: the player group of the chat pattern. */
  predicate IsChatName(p: string) {
    |p| > 0 && '>' !in p
  }

  /**
   `^([^\s]+)<phrase>$` for a phrase that starts with white space: the name
   group stops at the first white space, so the phrase has to start there.
   */
  function NameBefore(m: string, phrase: string): (r: Option<string>)
    requires |phrase| > 0 && IsSpace(phrase[0])
    ensures r.Some? ==> IsBareName(r.value) && m == r.value + phrase
    ensures forall p :: IsBareName(p) && m == p + phrase ==> r == Some(p)
  {
    var k := match FirstIndex(m, IsSpace, 0) case None => |m| case Some(i) => i;
    assert forall p :: IsBareName(p) && m == p + phrase ==> k == |p| && m[k..] == phrase && m[..k] == p by {
      forall p | IsBareName(p) && m == p + phrase ensures k == |p| && m[k..] == phrase && m[..k] == p {
        NameThenPhrase(m, phrase, p);
      }
    }
    if 0 < k && m[k..] == phrase then
      assert m == m[..k] + m[k..];
      Some(m[..k])
    else None
  }

  /** In `p + phrase` the first white space is where the phrase starts. */
  lemma NameThenPhrase(m: string, phrase: string, p: string)
    requires |phrase| > 0 && IsSpace(phrase[0])
    requires IsBareName(p) && m == p + phrase
    ensures FirstIndex(m, IsSpace, 0) == Some(|p|)
    ensures m[|p|..] == phrase && m[..|p|] == p
  {
    assert m[|p|] == phrase[0];
    assert forall i :: 0 <= i < |p| ==> m[i] == p[i];
  }

  /** `LoginEvent._process`: the player of `<name> joined the game`. */
  function ParseLogin(m: string): (r: Option<string>)
    ensures r.Some? ==> IsBareName(r.value) && m == r.value + " joined the game"
    ensures forall p :: IsBareName(p) && m == p + " joined the game" ==> r == Some(p)
  {
    assert IsSpace(JoinedPhrase[0]);
    NameBefore(m, JoinedPhrase)
  }

  /** `LogoutEvent._process`: the player of `<name> left the game`. */
  function ParseLogout(m: string): (r: Option<string>)
    ensures r.Some? ==> IsBareName(r.value) && m == r.value + " left the game"
    ensures forall p :: IsBareName(p) && m == p + " left the game" ==> r == Some(p)
  {
    assert IsSpace(LeftPhrase[0]);
    NameBefore(m, LeftPhrase)
  }

  predicate IsCloseAngle(c: char) { c == '>' }

  /** `ChatEvent._process`, pattern `^<([^>]+)> (.*)$`: the player and the chat text. */
  function ParseChat(m: string): (r: Option<(string, string)>)
    ensures r.Some? ==> IsChatName(r.value.0) && m == "<" + r.value.0 + "> " + r.value.1
    ensures forall p, t :: IsChatName(p) && m == "<" + p + "> " + t ==> r == Some((p, t))
  {
    assert forall p, t :: IsChatName(p) && m == "<" + p + "> " + t ==>
      && |m| > 0 && m[0] == '<' && FirstIndex(m, IsCloseAngle, 1) == Some(|p| + 1)
      && |p| + 3 <= |m| && m[|p| + 2] == ' ' && m[1..|p| + 1] == p && m[|p| + 3..] == t
    by {
      forall p, t | IsChatName(p) && m == "<" + p + "> " + t
        ensures && |m| > 0 && m[0] == '<' && FirstIndex(m, IsCloseAngle, 1) == Some(|p| + 1)
                && |p| + 3 <= |m| && m[|p| + 2] == ' ' && m[1..|p| + 1] == p && m[|p| + 3..] == t
      {
        ChatPieces(m, p, t);
      }
    }
    if |m| == 0 || m[0] != '<' then None
    else
      match FirstIndex(m, IsCloseAngle, 1)
      case None => None
      case Some(k) =>
        if k == 1 || |m| < k + 2 || m[k + 1] != ' ' then None
        else
          ChatCut(m, k);
          Some((m[1..k], m[k + 2..]))
  }

  /** Where the pieces of `<p> t` sit. */
  lemma ChatPieces(m: string, p: string, t: string)
    requires IsChatName(p) && m == "<" + p + "> " + t
    ensures FirstIndex(m, IsCloseAngle, 1) == Some(|p| + 1)
    ensures m[|p| + 2] == ' ' && m[1..|p| + 1] == p && m[|p| + 3..] == t
  {
    assert m[|p| + 1] == '>';
    assert forall i :: 0 <= i < |p| ==> m[i + 1] == p[i];
    assert m[1..|p| + 1] == p;
    assert m[|p| + 3..] == t;
  }

  /** Cutting at the first `>` after the `<` gives a chat name and a text. */
  lemma ChatCut(m: string, k: nat)
    requires 1 < k && k + 2 <= |m| && m[0] == '<' && m[k] == '>' && m[k + 1] == ' '
    requires forall j :: 1 <= j < k ==> m[j] != '>'
    ensures IsChatName(m[1..k]) && m == "<" + m[1..k] + "> " + m[k + 2..]
  {
    assert forall i :: 0 <= i < k - 1 ==> m[1..k][i] == m[i + 1];
    assert m == m[..1] + m[1..k] + m[k..k + 2] + m[k + 2..];
  }

  /** `DeathEvent` fields from the groups: player, then killer and weapon when the template has them. */
  function DeathOf(gs: seq<string>): (b: Body)
    requires |gs| > 0
    ensures b.Death? && b.player == gs[0]
    ensures b.killer.Some? <==> |gs| > 1
    ensures |gs| > 1 ==> b.killer == Some(gs[1])
    ensures b.weapon.Some? <==> |gs| > 2
    ensures |gs| > 2 ==> b.weapon == Some(gs[2])
  {
    Death(gs[0], if |gs| > 1 then Some(gs[1]) else None, if |gs| > 2 then Some(gs[2]) else None)
  }

  /** A cut of a template has as many groups as the template. */
  lemma SplitsGroups(t: Template, m: string, gs: seq<string>)
    requires Splits(t, m, gs)
    ensures |gs| == t.Groups()
  {
  }

  /** `re.match` has a match for the message in some template of `ts`. */
  ghost predicate AnyMatches(ts: seq<Template>, m: string) {
    exists k :: 0 <= k < |ts| && Matches(ts[k], m)
  }

  /** `DeathEvent._process` over the template list `ts`: the fields of the first template that matches. */
  function ParseDeathWith(ts: seq<Template>, m: string): (r: Option<Body>)
    ensures r.None? <==> !AnyMatches(ts, m)
    ensures forall k, gs :: ChosenBy(ts, m, k, gs) ==> r == Some(DeathOf(gs))
  {
    match FirstMatchFrom(ts, m, 0)
    case None => None
    case Some((k, gs)) =>
      SplitsGroups(ts[k], m, gs);
      ChosenIsUnique(ts, m, k, gs);
      Some(DeathOf(gs))
  }

  /** The death pattern list as mc.py has it. */
  function ParseDeath(m: string): (r: Option<Body>)
    ensures r.None? <==> !AnyMatches(DeathPatterns, m)
    ensures forall k, gs :: ChosenBy(DeathPatterns, m, k, gs) ==> r == Some(DeathOf(gs))
  {
    ParseDeathWith(DeathPatterns, m)
  }

  /** Equal group lengths make equal cuts. */
  lemma CutsAgree(t: Template, m: string, gs: seq<string>, hs: seq<string>)
    requires Splits(t, m, gs) && Splits(t, m, hs)
    requires NotBefore(hs, gs) && NotBefore(gs, hs)
    ensures gs == hs
  {
    match t
    case Suffix(a) =>
      assert gs[0] == m[..|gs[0]|] == hs[0];
    case Infix(a) =>
      assert gs[0] == m[..|gs[0]|] == hs[0];
      assert gs[1] == m[|gs[0]| + |a|..] == hs[1];
    case InfixSuffix(a, b) =>
      assert gs[0] == m[..|gs[0]|] == hs[0];
      assert gs[1] == m[|gs[0]| + |a|..|m| - |b|] == hs[1];
    case TwoInfix(a, b) =>
      assert gs[0] == m[..|gs[0]|] == hs[0];
      assert gs[1] == m[|gs[0]| + |a|..|gs[0]| + |a| + |gs[1]|] == hs[1];
      assert gs[2] == m[|gs[0]| + |a| + |gs[1]| + |b|..] == hs[2];
    case Fused(a, b) =>
      FusedCuts(m, a, b);
  }

  /** The first matching template and its greediest groups are the only choice. */
  lemma ChosenIsUnique(ts: seq<Template>, m: string, k: nat, gs: seq<string>)
    requires ChosenBy(ts, m, k, gs)
    ensures forall k': nat, hs :: ChosenBy(ts, m, k', hs) ==> k' == k && hs == gs
  {
    forall k': nat, hs | ChosenBy(ts, m, k', hs) ensures k' == k && hs == gs {
      assert Matches(ts[k], m) && Matches(ts[k'], m);
      assert k' == k;
      CutsAgree(ts[k], m, gs, hs);
    }
  }

  // Shapes of the messages each specialised class accepts, stated without the parsers.

  ghost predicate JoinShaped(m: string) {
    exists p :: IsBareName(p) && m == p + " joined the game"
  }

  ghost predicate LeaveShaped(m: string) {
    exists p :: IsBareName(p) && m == p + " left the game"
  }

  ghost predicate ChatShaped(m: string) {
    exists p, t :: IsChatName(p) && m == "<" + p + "> " + t
  }

  /** No message both joins and leaves: the two phrases differ where the name has to end. */
  lemma JoinAndLeaveExclusive(m: string)
    ensures !(JoinShaped(m) && LeaveShaped(m))
  {
    if JoinShaped(m) {
      var p :| IsBareName(p) && m == p + " joined the game";
      assert m[|p| + 2] == 'o';
    }
    if LeaveShaped(m) {
      var p :| IsBareName(p) && m == p + " left the game";
      assert m[|p|] == ' ';
    }
  }

  /**
   The cascade of `process_server_output` on one message, over the death list
   `ts`: the first of Login, Logout, Death and Chat whose body parses, else a
   plain event.
   */
  function ClassifyMessageWith(ts: seq<Template>, m: string): (b: Body)
    ensures b.Login? <==> JoinShaped(m)
    ensures b.Login? ==> IsBareName(b.player) && m == b.player + " joined the game"
    ensures b.Logout? <==> LeaveShaped(m)
    ensures b.Logout? ==> IsBareName(b.player) && m == b.player + " left the game"
    ensures b.Death? <==> !JoinShaped(m) && !LeaveShaped(m) && AnyMatches(ts, m)
    ensures b.Death? ==> forall k, gs :: ChosenBy(ts, m, k, gs) ==> b == DeathOf(gs)
    ensures b.Chat? <==> !JoinShaped(m) && !LeaveShaped(m) && !AnyMatches(ts, m) && ChatShaped(m)
    ensures b.Chat? ==> IsChatName(b.player) && m == "<" + b.player + "> " + b.chat
    ensures b.Generic? <==> !JoinShaped(m) && !LeaveShaped(m) && !AnyMatches(ts, m) && !ChatShaped(m)
  {
    JoinAndLeaveExclusive(m);
    match ParseLogin(m)
    case Some(p) => Login(p)
    case None =>
      match ParseLogout(m)
      case Some(p) => Logout(p)
      case None =>
        match ParseDeathWith(ts, m)
        case Some(d) => d
        case None =>
          match ParseChat(m)
          case Some((p, t)) => Chat(p, t)
          case None => Generic
  }

  /** The body `process_server_output` gives a message, with the death list of mc.py. */
  function ClassifyMessage(m: string): (b: Body)
    ensures b.Death? <==> !JoinShaped(m) && !LeaveShaped(m) && AnyMatches(DeathPatterns, m)
    ensures b.Chat? <==> !JoinShaped(m) && !LeaveShaped(m) && !AnyMatches(DeathPatterns, m) && ChatShaped(m)
    ensures b.Chat? ==> IsChatName(b.player) && m == "<" + b.player + "> " + b.chat
  {
    ClassifyMessageWith(DeathPatterns, m)
  }

  /**
   `process_server_output`, lines 86-95: the event of a console line, or
   `None` where the final `ServerEvent(line)` raises `LogParseError`.
   */
  function Classify(line: string): (r: Option<Event>)
    ensures r.None? <==> !IsLogLine(line)
    ensures r.Some? ==> r.value.envelope.source == line
    ensures r.Some? ==> var e := r.value.envelope;
      && Capturable(e.time, e.thread, e.level, e.message)
      && (line == Layout(e.time, e.thread, e.level, e.message) || line == Layout(e.time, e.thread, e.level, e.message) + "\n")
      && r.value.body == ClassifyMessage(e.message)
  {
    ParseAcceptsExactlyLogLines(line);
    ParseLaysOut(line);
    match Parse(line)
    case None => None
    case Some(e) => Some(Event(e, ClassifyMessage(e.message)))
  }

  /** A laid-out line is classified by its message, with the envelope it was built from. */
  lemma ClassifyLayout(time: string, thread: string, level: string, message: string, newline: bool)
    requires Capturable(time, thread, level, message)
    ensures var line := Layout(time, thread, level, message) + (if newline then "\n" else "");
      Classify(line) == Some(Event(Envelope(line, time, thread, level, message), ClassifyMessage(message)))
  {
    ParseLayout(time, thread, level, message, newline);
  }
}
