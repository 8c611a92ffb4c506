/**
 Handler registration and selection of `MinecraftServer` in mc.py. A handler
 is known by an identifier; running it is left to the caller, so selecting
 handlers for a line yields the identifiers in the order mc.py calls them.
 `re.match` of a user's chat pattern is a parameter `matches`.
 */
module Handlers {
  import opened Wrappers
  import opened Text
  import opened LogEnvelope
  import opened DeathTemplates
  import opened Events

  /** A registered callback. */
  type HandlerId = nat

  /** `ChatHandler`: the pattern, the optional level and thread, and the callback. */
  datatype ChatHandler = ChatHandler(pattern: string, level: Option<string>, thread: Option<string>, callback: HandlerId)

  /** The five handler lists of a server, each in registration order. */
  datatype Registry = Registry(
    start: seq<HandlerId>,
    login: seq<HandlerId>,
    logout: seq<HandlerId>,
    death: seq<HandlerId>,
    chat: seq<ChatHandler>)

  /** The lists as `__init__` leaves them. */
  const NoHandlers: Registry := Registry([], [], [], [], [])

  /** The pattern `on_chat` uses when none is given. */
  const DefaultPattern: string := "^.*$"

  /** `on_start`: appends to the start handlers only. */
  function OnStart(reg: Registry, f: HandlerId): (r: Registry)
    ensures r.start == reg.start + [f]
    ensures r.login == reg.login && r.logout == reg.logout && r.death == reg.death && r.chat == reg.chat
  {
    reg.(start := reg.start + [f])
  }

  /** `on_login`: appends to the login handlers only. */
  function OnLogin(reg: Registry, f: HandlerId): (r: Registry)
    ensures r.login == reg.login + [f]
    ensures r.start == reg.start && r.logout == reg.logout && r.death == reg.death && r.chat == reg.chat
  {
    reg.(login := reg.login + [f])
  }

  /** `on_logout`: appends to the logout handlers only. */
  function OnLogout(reg: Registry, f: HandlerId): (r: Registry)
    ensures r.logout == reg.logout + [f]
    ensures r.start == reg.start && r.login == reg.login && r.death == reg.death && r.chat == reg.chat
  {
    reg.(logout := reg.logout + [f])
  }

  /** `on_death`: appends to the death handlers only. */
  function OnDeath(reg: Registry, f: HandlerId): (r: Registry)
    ensures r.death == reg.death + [f]
    ensures r.start == reg.start && r.login == reg.login && r.logout == reg.logout && r.chat == reg.chat
  {
    reg.(death := reg.death + [f])
  }

  /** `on_chat(pattern, level, thread)` applied to `f`: appends one chat handler only. */
  function OnChat(reg: Registry, pattern: string, level: Option<string>, thread: Option<string>, f: HandlerId): (r: Registry)
    ensures r.chat == reg.chat + [ChatHandler(pattern, level, thread, f)]
    ensures r.start == reg.start && r.login == reg.login && r.logout == reg.logout && r.death == reg.death
  {
    reg.(chat := reg.chat + [ChatHandler(pattern, level, thread, f)])
  }

  /** The three tests of lines 106-111: the pattern matches the chat text, and level and thread agree where set. */
  predicate Fires(h: ChatHandler, matches: (string, string) -> bool, e: Envelope, chat: string) {
    && matches(h.pattern, chat)
    && (h.level.None? || h.level.value == e.level)
    && (h.thread.None? || h.thread.value == e.thread)
  }

  /** Lines 105-112: the callbacks of the chat handlers that fire, in registration order. */
  function FireChat(hs: seq<ChatHandler>, matches: (string, string) -> bool, e: Envelope, chat: string): (r: seq<HandlerId>)
    ensures |r| <= |hs|
    ensures forall f :: f in r ==> exists i :: 0 <= i < |hs| && hs[i].callback == f && Fires(hs[i], matches, e, chat)
  {
    if |hs| == 0 then []
    else
      var rest := FireChat(hs[..|hs| - 1], matches, e, chat);
      var h := hs[|hs| - 1];
      assert forall i :: 0 <= i < |hs| - 1 ==> hs[..|hs| - 1][i] == hs[i];
      if Fires(h, matches, e, chat) then rest + [h.callback] else rest
  }

  /** Every handler that fires contributes its callback. */
  lemma {:induction false} FireChatComplete(hs: seq<ChatHandler>, matches: (string, string) -> bool, e: Envelope, chat: string, i: nat)
    requires i < |hs| && Fires(hs[i], matches, e, chat)
    ensures hs[i].callback in FireChat(hs, matches, e, chat)
    decreases |hs|
  {
    if i < |hs| - 1 {
      FireChatComplete(hs[..|hs| - 1], matches, e, chat, i);
    }
  }

  /** A handler registered later runs after those registered before it, and only if it fires. */
  lemma FireChatAppend(hs: seq<ChatHandler>, h: ChatHandler, matches: (string, string) -> bool, e: Envelope, chat: string)
    ensures FireChat(hs + [h], matches, e, chat)
         == FireChat(hs, matches, e, chat) + (if Fires(h, matches, e, chat) then [h.callback] else [])
  {
    assert (hs + [h])[..|hs + [h]| - 1] == hs;
  }

  /** Lines 97-112: the callbacks `process_server_output` calls for an event, in order. */
  function Dispatch(reg: Registry, ev: Event, matches: (string, string) -> bool): (r: seq<HandlerId>)
    ensures ev.body.Login? ==> r == reg.login
    ensures ev.body.Logout? ==> r == reg.logout
    ensures ev.body.Death? ==> r == reg.death
    ensures ev.body.Generic? ==> r == []
    ensures ev.body.Chat? ==> forall f ::
      f in r <==> exists i :: 0 <= i < |reg.chat| && reg.chat[i].callback == f && Fires(reg.chat[i], matches, ev.envelope, ev.body.chat)
  {
    match ev.body
    case Login(_) => reg.login
    case Logout(_) => reg.logout
    case Death(_, _, _) => reg.death
    case Chat(_, text) =>
      assert forall i :: 0 <= i < |reg.chat| && Fires(reg.chat[i], matches, ev.envelope, text) ==>
        reg.chat[i].callback in FireChat(reg.chat, matches, ev.envelope, text)
      by {
        forall i | 0 <= i < |reg.chat| && Fires(reg.chat[i], matches, ev.envelope, text)
          ensures reg.chat[i].callback in FireChat(reg.chat, matches, ev.envelope, text)
        {
          FireChatComplete(reg.chat, matches, ev.envelope, text, i);
        }
      }
      FireChat(reg.chat, matches, ev.envelope, text)
    case Generic => []
  }

  /**
   `process_server_output` on one console line: the callbacks it runs, or the
   message of the `LogParseError` it raises when the envelope does not parse.
   */
  function ProcessLine(reg: Registry, line: string, matches: (string, string) -> bool): (r: Result<seq<HandlerId>, string>)
    ensures r.Failure? <==> !IsLogLine(line)
    ensures r.Failure? ==> r.error == "Could not parse line: " + line
    ensures r.Success? ==> Classify(line).Some? && r.value == Dispatch(reg, Classify(line).value, matches)
  {
    match Classify(line)
    case None => Failure("Could not parse line: " + line)
    case Some(ev) => Success(Dispatch(reg, ev, matches))
  }

  // Registration and selection together.

  /** One call of an `on_*` method. */
  datatype Registration =
    | StartReg(f: HandlerId)
    | LoginReg(f: HandlerId)
    | LogoutReg(f: HandlerId)
    | DeathReg(f: HandlerId)
    | ChatReg(pattern: string, level: Option<string>, thread: Option<string>, f: HandlerId)

  /** Applies one registration. */
  function Register(reg: Registry, x: Registration): Registry {
    match x
    case StartReg(f) => OnStart(reg, f)
    case LoginReg(f) => OnLogin(reg, f)
    case LogoutReg(f) => OnLogout(reg, f)
    case DeathReg(f) => OnDeath(reg, f)
    case ChatReg(p, l, t, f) => OnChat(reg, p, l, t, f)
  }

  /** The registry after a history of registrations on a fresh server. */
  function Replay(h: seq<Registration>): Registry {
    if |h| == 0 then NoHandlers else Register(Replay(h[..|h| - 1]), h[|h| - 1])
  }

  /** The callbacks registered for kind `kind` in `h`, in order: an independent reading of a history. */
  function Registered(h: seq<Registration>, kind: Registration -> bool): seq<HandlerId> {
    if |h| == 0 then []
    else if kind(h[0]) then [h[0].f] + Registered(h[1..], kind)
    else Registered(h[1..], kind)
  }

  /** The chat handlers of `h`, in order. */
  function ChatsOf(h: seq<Registration>): seq<ChatHandler> {
    if |h| == 0 then []
    else if h[0].ChatReg? then [ChatHandler(h[0].pattern, h[0].level, h[0].thread, h[0].f)] + ChatsOf(h[1..])
    else ChatsOf(h[1..])
  }

  predicate IsStart(x: Registration) { x.StartReg? }
  predicate IsLogin(x: Registration) { x.LoginReg? }
  predicate IsLogout(x: Registration) { x.LogoutReg? }
  predicate IsDeath(x: Registration) { x.DeathReg? }

  lemma {:induction false} RegisteredSnoc(h: seq<Registration>, x: Registration, kind: Registration -> bool)
    ensures Registered(h + [x], kind) == Registered(h, kind) + (if kind(x) then [x.f] else [])
  {
    if |h| > 0 {
      assert (h + [x])[1..] == h[1..] + [x];
      RegisteredSnoc(h[1..], x, kind);
    }
  }

  lemma {:induction false} ChatsOfSnoc(h: seq<Registration>, x: Registration)
    ensures ChatsOf(h + [x]) == ChatsOf(h) + (if x.ChatReg? then [ChatHandler(x.pattern, x.level, x.thread, x.f)] else [])
  {
    if |h| > 0 {
      assert (h + [x])[1..] == h[1..] + [x];
      ChatsOfSnoc(h[1..], x);
    }
  }

  /** Each handler list holds exactly the callbacks registered for its kind, in registration order. */
  lemma {:induction false} ReplayKeepsOrder(h: seq<Registration>)
    ensures Replay(h).start == Registered(h, IsStart)
    ensures Replay(h).login == Registered(h, IsLogin)
    ensures Replay(h).logout == Registered(h, IsLogout)
    ensures Replay(h).death == Registered(h, IsDeath)
    ensures Replay(h).chat == ChatsOf(h)
  {
    if |h| > 0 {
      var init, x := h[..|h| - 1], h[|h| - 1];
      assert h == init + [x];
      ReplayKeepsOrder(init);
      RegisteredSnoc(init, x, IsStart);
      RegisteredSnoc(init, x, IsLogin);
      RegisteredSnoc(init, x, IsLogout);
      RegisteredSnoc(init, x, IsDeath);
      ChatsOfSnoc(init, x);
    }
  }

  /** Registering a login handler adds it, last, to login events only. */
  lemma OnLoginDispatch(reg: Registry, f: HandlerId, ev: Event, matches: (string, string) -> bool)
    ensures Dispatch(OnLogin(reg, f), ev, matches) == Dispatch(reg, ev, matches) + (if ev.body.Login? then [f] else [])
  {
  }

  /** Registering a logout handler adds it, last, to logout events only. */
  lemma OnLogoutDispatch(reg: Registry, f: HandlerId, ev: Event, matches: (string, string) -> bool)
    ensures Dispatch(OnLogout(reg, f), ev, matches) == Dispatch(reg, ev, matches) + (if ev.body.Logout? then [f] else [])
  {
  }

  /** Registering a death handler adds it, last, to death events only. */
  lemma OnDeathDispatch(reg: Registry, f: HandlerId, ev: Event, matches: (string, string) -> bool)
    ensures Dispatch(OnDeath(reg, f), ev, matches) == Dispatch(reg, ev, matches) + (if ev.body.Death? then [f] else [])
  {
  }

  /** Start handlers are never selected for a console line. */
  lemma OnStartDispatch(reg: Registry, f: HandlerId, ev: Event, matches: (string, string) -> bool)
    ensures Dispatch(OnStart(reg, f), ev, matches) == Dispatch(reg, ev, matches)
  {
  }

  /** Registering a chat handler adds it, last, to the chat events it fires for only. */
  lemma OnChatDispatch(reg: Registry, pattern: string, level: Option<string>, thread: Option<string>, f: HandlerId,
                       ev: Event, matches: (string, string) -> bool)
    ensures var h := ChatHandler(pattern, level, thread, f);
      Dispatch(OnChat(reg, pattern, level, thread, f), ev, matches)
        == Dispatch(reg, ev, matches) + (if ev.body.Chat? && Fires(h, matches, ev.envelope, ev.body.chat) then [f] else [])
  {
    if ev.body.Chat? {
      FireChatAppend(reg.chat, ChatHandler(pattern, level, thread, f), matches, ev.envelope, ev.body.chat);
    }
  }

  /** `matches` agrees with `re.match` on the default pattern, which matches every text without a newline. */
  ghost predicate DefaultAcceptsAll(matches: (string, string) -> bool) {
    forall t :: '\n' !in t ==> matches(DefaultPattern, t)
  }

  /** A chat text never holds a newline: it is the tail of an envelope's message. */
  lemma ChatTextHasNoNewline(line: string)
    ensures Classify(line).Some? && Classify(line).value.body.Chat? ==> '\n' !in Classify(line).value.body.chat
  {
    if Classify(line).Some? && Classify(line).value.body.Chat? {
      var ev := Classify(line).value;
      TailKeepsNoNewline("<" + ev.body.player + "> ", ev.body.chat);
    }
  }

  /** A suffix of a newline-free string is newline-free. */
  lemma TailKeepsNoNewline(head: string, t: string)
    ensures '\n' !in head + t ==> '\n' !in t
  {
    assert forall i :: 0 <= i < |t| ==> t[i] == (head + t)[|head| + i];
  }

  /** An unconditional `on_chat()` handler runs, last, for every chat line. */
  lemma DefaultChatHandlerFires(reg: Registry, f: HandlerId, line: string, matches: (string, string) -> bool)
    requires DefaultAcceptsAll(matches)
    ensures Classify(line).Some? && Classify(line).value.body.Chat? ==>
      var r := ProcessLine(OnChat(reg, DefaultPattern, None, None, f), line, matches);
      r.Success? && r.value == ProcessLine(reg, line, matches).value + [f]
  {
    if Classify(line).Some? && Classify(line).value.body.Chat? {
      ChatTextHasNoNewline(line);
      ParseAcceptsExactlyLogLines(line);
      OnChatDispatch(reg, DefaultPattern, None, None, f, Classify(line).value, matches);
    }
  }

  /** A line that fails to parse runs no handler, whatever is registered. */
  lemma UnparsableLineRunsNothing(reg: Registry, line: string, matches: (string, string) -> bool)
    requires !IsLogLine(line)
    ensures ProcessLine(reg, line, matches) == Failure("Could not parse line: " + line)
  {
  }
}
