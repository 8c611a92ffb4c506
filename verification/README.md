# Console-line classification and handler dispatch of mc.py

mc.py wraps a Minecraft server process. It reads the server's console
output line by line and turns each line into an event object:

- `ServerEvent` cuts a line `[hh:mm:ss] [thread/level]: message` into its
  envelope fields. If the line does not have that shape, it raises
  `LogParseError`.
- `process_server_output` tries `LoginEvent`, `LogoutEvent`, `DeathEvent`
  and `ChatEvent` in that order. Each one re-reads the message with its own
  pattern. A line none of them accepts becomes a plain `ServerEvent`.
- It then runs the handlers registered with `on_login`, `on_logout`,
  `on_death` or `on_chat` for the event's kind. A chat handler (`ChatHandler`)
  runs only when its pattern matches the chat text and its optional level and
  thread agree with the line.

The project also models three console commands the wrapper sends:
`apply_effect` with its level encoding, `give_item` and `clear_inventory`.

Modules:

- `Wrappers`: `Option` and `Result`.
- `Text`: character classes `\d` and `\s`, literal occurrence, first and last
  occurrence search.
- `LogEnvelope`: the envelope pattern as `Parse`, with an independent
  description of the accepted lines (`IsLogLine`, `Layout`).
- `DeathTemplates`: the death templates as data, the meaning of `re.match` on
  each (`Matches`, `Greediest`) and a matcher (`Match`). The list
  `DeathPatterns` has the 41 entries the Python literal holds.
- `Events`: the body parsers and the cascade (`ClassifyMessage`, `Classify`).
- `DeathQuirks`: what the list as written does. Some entries can never be
  chosen, no death ever carries a weapon, and `<x> drowned` is no death.
- `CorrectedDeaths`: the list with the missing comma restored and each
  `using` template ahead of the one that shadows it.
- `Handlers`: registration (`on_*`), selection (`Dispatch`) and
  `process_server_output` (`ProcessLine`).
- `Scenarios`: whole lines and messages taken through the model.
- `Commands`: the `/effect`, `/give` and `/clear` command lines.

Regular expressions are not interpreted in general. Each pattern of mc.py is
modelled by hand:

- In `^(.*)a(.*)$` and `^(.*)a$` the greedy first group stops at the last
  occurrence of `a` that still leaves a match.
- In `^(.*)a(.*)b(.*)$` the third group starts after the last `b`, and the
  first group stops at the last `a` that ends before that `b`. In
  `A was shot by B using C was shot by D`, for instance, the groups are `A`,
  `B` and `C was shot by D`.
- `[^\s]+`, `[^>]+`, `[^/]+` and `[^\]]+` are predicates on the captured
  string.
- `re.match` anchors at the start. `$` also matches before one final newline,
  which `LogEnvelope.MessageOf` handles.

The pattern language of `on_chat` is the one exception: it stays a parameter
`matches(pattern, text)`.

## Model

| member | source | states |
|---|---|---|
| LogEnvelope.MessageOf | mc.py:386 | the `(.*)$` group never holds a newline and is the whole rest of the line, or the rest without one final newline |
| LogEnvelope.MessageOfAccepts | mc.py:386 | a message without a newline is taken whole, whether or not one newline follows it |
| LogEnvelope.Parse | mc.py:386-399 | an accepted line keeps itself as `source`, and its four groups have the shapes `\d{2}:\d{2}:\d{2}`, `[^/]+`, `[^\]]+` and a newline-free message |
| LogEnvelope.ParseLaysOut | mc.py:386-396 | an accepted line is exactly `[time] [thread/level]: message`, with at most one newline after it |
| LogEnvelope.ParseLayout | mc.py:386-397 | every line of that layout with capturable pieces is accepted, and the groups are exactly those pieces |
| LogEnvelope.ParseAcceptsExactlyLogLines | mc.py:388-399 | a line is accepted if and only if it has the layout; otherwise mc.py raises `LogParseError` |
| DeathTemplates.Match | mc.py:470-472 | `re.match` on one template returns the greediest groups that spell the message, and fails exactly when no cut exists |
| DeathTemplates.FirstMatchFrom | mc.py:470-477 | the first template from a position that matches, with its groups, and that no earlier template matches; `None` only when none matches |
| DeathTemplates.InfixShadowsTwoInfix | mc.py:427-428 | whatever `^(.*)a(.*)b(.*)$` matches, `^(.*)a(.*)$` matches too |
| DeathTemplates.ShorterSuffixShadows | mc.py:464-465 | whatever `^(.*)ab$` matches, `^(.*)b$` matches too |
| DeathTemplates.FusedNeverMatches | mc.py:430-431 | a pattern with `$^` in the middle and a non-empty first literal matches no message |
| Events.ParseLogin | mc.py:406-413 | the player of `<name> joined the game`, with `<name>` free of white space; `None` if and only if no such name exists |
| Events.ParseLogout | mc.py:415-422 | the same for `<name> left the game` |
| Events.ParseChat | mc.py:480-488 | the player and text of `<player> text`, with the player free of `>`; `None` if and only if the message has no such split |
| Events.DeathOf | mc.py:473-475 | the player is the first group; the killer is the second group when there is one and absent otherwise; the weapon is the third group when there is one and absent otherwise |
| Events.ParseDeath | mc.py:424-478 | no death exactly when no template matches; otherwise the fields come from the first matching template's groups |
| Events.ChosenIsUnique | mc.py:470-476 | the first matching template and its groups are determined by the message |
| Events.JoinAndLeaveExclusive | mc.py:406-422 | no message is both a login and a logout |
| Events.ClassifyMessageWith | mc.py:86-95 | the cascade yields a login exactly for join messages, a logout exactly for leave messages, a death exactly when neither holds and a template matches, a chat exactly when none of those holds and the message is `<p> t`, and a plain event otherwise |
| Events.ClassifyMessage | mc.py:86-95 | the cascade with the list of mc.py: when it gives a death, when it gives a chat, and what the chat holds |
| Events.Classify | mc.py:85-95 | a line becomes an event exactly when the envelope pattern accepts it, and the event's body is the class of its message |
| Events.ClassifyLayout | mc.py:86-95 | a laid-out line becomes the event of its message, carrying the envelope it was built from |
| DeathQuirks.FusedEntryMatchesNothing | mc.py:430-431 | the entry fused by the missing comma matches no message |
| DeathQuirks.EarlierEntryMatches | mc.py:427-465 | entries 2, 30, 32 (the `using` templates) and 38 match only messages the entry right before them matches |
| DeathQuirks.ShadowedNeverChosen | mc.py:426-476 | entries 2, 4, 30, 32 and 38 are never the template `DeathEvent` uses |
| DeathQuirks.WeaponNeverSet | mc.py:470-476 | no death event built from the list as written carries a weapon |
| DeathQuirks.ShotByArrow | mc.py:426 | `<x> was shot by arrow` is a death of `x` with no killer |
| DeathQuirks.ShotByUsingAsWritten | mc.py:427-428 | `A was shot by B using C` is a death with killer `B using C` and no weapon |
| DeathQuirks.OneSpaceMatchesNothing | mc.py:426-467 | no template of the list matches a message with at most one space |
| DeathQuirks.DrownedIsNotDeath | mc.py:430-431 | `<name> drowned`, for a one-word name, becomes a chat or plain event, never a death |
| CorrectedDeaths.DrownedIsDeath | mc.py:430-431 | with the comma restored, `<name> drowned` is a death of that name with no killer |
| CorrectedDeaths.ShotByUsingCorrected | mc.py:427-428 | with the `using` template first, `A was shot by B using C` gives killer `B` and weapon `C` |
| Handlers.OnStart | mc.py:126-127 | appends the callback to the start handlers and leaves the other lists unchanged |
| Handlers.OnLogin | mc.py:120-121 | appends the callback to the login handlers and leaves the other lists unchanged |
| Handlers.OnLogout | mc.py:123-124 | appends the callback to the logout handlers and leaves the other lists unchanged |
| Handlers.OnDeath | mc.py:117-118 | appends the callback to the death handlers and leaves the other lists unchanged |
| Handlers.OnChat | mc.py:129-132 | appends one `ChatHandler` with the given pattern, level and thread, and leaves the other lists unchanged |
| Handlers.FireChatComplete | mc.py:105-112 | every chat handler whose pattern, level and thread tests pass contributes its callback |
| Handlers.FireChatAppend | mc.py:105-112 | a handler registered later runs after those registered before it, and only when its tests pass |
| Handlers.Dispatch | mc.py:97-112 | login, logout and death events run exactly their lists; a plain event runs nothing; a chat event runs exactly the callbacks of the chat handlers whose tests pass |
| Handlers.ProcessLine | mc.py:85-115 | an unparsable line fails with `Could not parse line: <line>` and runs nothing; any other line runs the dispatch of its event |
| Handlers.ReplayKeepsOrder | mc.py:117-132 | after any sequence of `on_*` calls, each list holds exactly the callbacks registered for its kind, in registration order |
| Handlers.OnLoginDispatch | mc.py:98-99 | registering a login handler adds it, last, to login events only |
| Handlers.OnLogoutDispatch | mc.py:100-101 | registering a logout handler adds it, last, to logout events only |
| Handlers.OnDeathDispatch | mc.py:102-103 | registering a death handler adds it, last, to death events only |
| Handlers.OnStartDispatch | mc.py:97-112 | a start handler is never selected for a console line |
| Handlers.OnChatDispatch | mc.py:104-112 | registering a chat handler adds it, last, to exactly the chat events it fires for |
| Handlers.ChatTextHasNoNewline | mc.py:482-486 | the chat text of a classified line never holds a newline |
| Handlers.DefaultChatHandlerFires | mc.py:129-131 | a chat handler registered with the default arguments runs, last, for every chat line |
| Handlers.UnparsableLineRunsNothing | mc.py:88-95 | a line without the envelope fails with the `LogParseError` message, whatever is registered |
| Scenarios.JoinMessage | mc.py:406-411 | `Steve joined the game` is a login by `Steve` |
| Scenarios.JoinLine | mc.py:85-95 | `[12:34:56] [Server thread/INFO]: Steve joined the game` is a login event for `Steve` with that envelope |
| Scenarios.OneWordChat | mc.py:480-486 | `<p> t`, with no space in `p` or `t`, is a chat by `p` saying `t` |
| Scenarios.ChatReadAsDeath | mc.py:86-95 | a chat message `<p> x was shot by arrow` becomes a death of `<p> x`, because the death templates are tried before the chat pattern |
| Scenarios.SavingWorld | mc.py:86-95 | `Saving world` becomes a plain event |
| Scenarios.GarbageLine | mc.py:399 | a line without brackets makes `process_server_output` fail with `Could not parse line: ...` |
| Scenarios.HelpAndCatchAll | mc.py:104-112 | handlers for `^!help$` and for the default pattern, registered in that order, both run for `!help`, in that order |
| Commands.NatToDecimal | mc.py:182 | `str(n)` of a natural number is a non-empty run of digits without a leading zero |
| Commands.DecimalRoundTrip | mc.py:182 | reading back the digits `str(n)` prints gives `n` |
| Commands.IntToDecimal | mc.py:182 | `str(n)` has no space; it is the digits of `n`, with a minus sign in front when `n` is negative |
| Commands.EffectAmplifier | mc.py:173-180 | the amplifier lies in -1..255; negative levels land in 128..255; level 0 gives -1; levels beyond ±128 are clamped |
| Commands.EffectRoundTrip | mc.py:173-180 | decoding the amplifier gives back the clamped level |
| Commands.EffectInjective | mc.py:173-180 | distinct levels within ±128 get distinct amplifiers |
| Commands.IntRoundTrip | mc.py:182 | reading back `str(n)`, minus sign included, gives `n` for every integer |
| Commands.DefaultLevelIsAmplifierZero | mc.py:171-180 | the default level 1 is sent as amplifier 0 and reads back as level 1 |
| Commands.ApplyEffect | mc.py:171-182 | the command is `/effect`, then the player, the effect, the duration and the amplifier, joined by spaces and ending in a newline |
| Commands.ApplyEffectWords | mc.py:171-182 | with space-free player and effect, the `/effect` line splits into five words: `/effect`, the player, the effect, a number that reads back as the duration, and an amplifier that decodes to the clamped level |
| Commands.GiveItem | mc.py:252-260 | `/give`, then the player, the item and the amount, followed by the data and the data tag only where they are non-empty, joined by spaces and ending in a newline |
| Commands.GiveItemWords | mc.py:252-260 | with space-free arguments, the words of the `/give` line are exactly the arguments sent |
| Commands.ClearInventory | mc.py:262-274 | `/clear` and the player, then the item and its data, the maximum count and the data tag, each only where given |
| Commands.ClearInventoryWords | mc.py:262-274 | with space-free arguments, the words of the `/clear` line are exactly the arguments sent, and the data appears only after an item |

## Left out

- The server process, `send`, `readline` and threading are left out. A console line is a parameter; a handler is an identifier (`HandlerId`) rather than a callable, and `Dispatch` returns the callbacks in the order they would be called.
- Handler exceptions are left out. A callback that raises stops the loop at line 115, and the model does not cover that.
- The pattern language of `on_chat` is left out. `re.match(pattern, chat)` is a parameter `matches`. Only `DefaultAcceptsAll` says that the default `^.*$` accepts every newline-free text.
- The commands other than `apply_effect`, `give_item` and `clear_inventory` are left out. They format their arguments into a string the same way and add nothing to the classifier.
- Python's `%s` of values that are not strings or ints is left out. The `duration` and `amount` arguments are modelled as integers, printed as `str(int)` prints them.
- DeathQuirks.ShotByUsingAsWritten: shows the shadowing with a worked message for the first `using` template only. The templates at lines 457 and 459 are covered by `EarlierEntryMatches` and `WeaponNeverSet`, without a worked message.
- DeathQuirks.DrownedIsNotDeath: covers the drowned half of the fused entry at lines 430-431. For the cactus half, the model proves only that the fused entry matches nothing (`FusedEntryMatchesNothing`). It does not prove that `x walked into a cactus while trying to escape y` matches none of the other 40 templates. That would need a word-by-word comparison against every literal.
- `X was slain by Y using Z` reads as a kill by `Y` with weapon `Z`, but the code gives killer `Y using Z` and no weapon (see Findings). The model follows the code.
- Lines 426-467 hold 42 template strings, but the Python literal has 41 entries, because lines 430 and 431 form one string. `DeathPatterns` follows the literal; `CorrectedDeaths.CorrectedPatterns` has the 42 templates.
- Non-string `data`, `data_tag` and `max_count` are left out. These arguments are modelled as optional strings. In mc.py, `' ' + x` at lines 256, 258, 268 and 270 raises `TypeError` when such an argument is an int, e.g. `clear_inventory('Steve', max_count=5)`. The model has no such failure; it assumes callers pass strings.
- A chat pattern that `re` rejects is left out. `matches` is a total function, but mc.py raises `re.error` at line 106 for an invalid `on_chat` pattern. That happens while handlers are being selected, so no handler of that line runs. The model does not cover this abort.
- `ServerEvent.__str__` (line 402) reads an attribute that does not exist. It is not part of this model.

## Findings

| source | as written | input that shows it | evidently intended | confidence | as-written member | corrected member |
|---|---|---|---|---|---|---|
| mc.py:427-428 | `^(.*) was shot by (.*)$` comes before `^(.*) was shot by (.*) using (.*)$`; the same holds for lines 456-457 and 458-459, and the bare template takes every `using` message first | `A was shot by B using C` gives killer `B using C` and no weapon | the `using` template is tried first, giving killer `B` and weapon `C` | not executed | DeathQuirks.ShotByUsingAsWritten | CorrectedDeaths.ShotByUsingCorrected |
| mc.py:430-431 | a missing comma fuses the cactus template with `^(.*) drowned$` into one pattern with `$^` in the middle, which matches nothing | `Steve drowned` becomes a plain event, not a death | two separate templates, so that `Steve drowned` is a death of `Steve` | not executed | DeathQuirks.DrownedIsNotDeath | CorrectedDeaths.DrownedIsDeath |
