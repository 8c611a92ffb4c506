/**
 The console commands of mc.py that do more than fill in a template: the
 level encoding of `apply_effect`, and the optional arguments of `give_item`
 and `clear_inventory`. A command is the text handed to `send`.
 */
module Commands {
  import opened Wrappers
  import opened Text

  // Numbers as `%s` prints them.

  function DigitChar(d: nat): (c: char)
    requires d < 10
    ensures IsDigit(c) && c as int - '0' as int == d
  {
    ('0' as int + d) as char
  }

  /** `str(n)` for `n >= 0`. */
  function NatToDecimal(n: nat): (s: string)
    ensures |s| > 0 && forall i :: 0 <= i < |s| ==> IsDigit(s[i])
    ensures n >= 10 ==> s[0] != '0'
    decreases n
  {
    if n < 10 then [DigitChar(n)] else NatToDecimal(n / 10) + [DigitChar(n % 10)]
  }

  /** The number a string of digits spells. */
  function DecimalValue(s: string): nat
    requires forall i :: 0 <= i < |s| ==> IsDigit(s[i])
  {
    if |s| == 0 then 0
    else
      assert IsDigit(s[|s| - 1]);
      DecimalValue(s[..|s| - 1]) * 10 + (s[|s| - 1] as int - '0' as int)
  }

  /** Reading back what `NatToDecimal` prints gives the number. */
  lemma {:induction false} DecimalRoundTrip(n: nat)
    ensures DecimalValue(NatToDecimal(n)) == n
    decreases n
  {
    if n >= 10 {
      var s := NatToDecimal(n);
      DecimalRoundTrip(n / 10);
      assert s[..|s| - 1] == NatToDecimal(n / 10);
    }
  }

  /** `str(n)`: a minus sign in front of a negative number. */
  function IntToDecimal(n: int): (s: string)
    ensures |s| > 0 && ' ' !in s
    ensures n >= 0 ==> (forall i :: 0 <= i < |s| ==> IsDigit(s[i])) && DecimalValue(s) == n
    ensures n < 0 ==> s[0] == '-' && (forall i :: 1 <= i < |s| ==> IsDigit(s[i])) && DecimalValue(s[1..]) == -n
  {
    if n < 0 then
      DecimalRoundTrip(-n);
      var d := NatToDecimal(-n);
      assert ("-" + d)[1..] == d;
      "-" + d
    else
      DecimalRoundTrip(n);
      NatToDecimal(n)
  }

  /** `int(s)` on what `str` prints: optional minus sign, then at least one digit. */
  function ReadInt(s: string): (r: Option<int>)
    ensures r.Some? ==> |s| > 0
  {
    if |s| > 1 && s[0] == '-' && forall i :: 1 <= i < |s| ==> IsDigit(s[i]) then
      Some(-(DecimalValue(s[1..]) as int))
    else if |s| > 0 && forall i :: 0 <= i < |s| ==> IsDigit(s[i]) then
      Some(DecimalValue(s))
    else
      None
  }

  /** Reading back what `str(n)` prints gives `n`, negative or not. */
  lemma IntRoundTrip(n: int)
    ensures ReadInt(IntToDecimal(n)) == Some(n)
  {
    var s := IntToDecimal(n);
    if n < 0 {
      assert s[0] == '-' && !IsDigit(s[0]);
    }
  }

  // apply_effect

  /** The defaults of `apply_effect` (line 171): a 30-second effect of level 1. */
  const DefaultDuration: int := 30
  const DefaultLevel: int := 1

  /** The default of `give_item` (line 252): one item. */
  const DefaultAmount: int := 1

  /** The default level is sent as amplifier 0, the weakest effect. */
  lemma DefaultLevelIsAmplifierZero()
    ensures EffectAmplifier(DefaultLevel) == 0
    ensures AmplifierLevel(EffectAmplifier(DefaultLevel)) == DefaultLevel
  {
  }

  /** Lines 173-174: a level beyond 128 either way is cut to 128 or -128. */
  function ClampLevel(level: int): int {
    if level > 128 || level < -128 then (if level > 0 then 128 else -128) else level
  }

  /**
   Lines 176-180: the amplifier `/effect` receives for a requested level.
   Negative levels go to the top half of a byte, the others count from zero.
   */
  function EffectAmplifier(level: int): (a: int)
    ensures -1 <= a <= 255
    ensures level < 0 <==> 128 <= a
    ensures level == 0 <==> a == -1
    ensures 0 < level <= 128 ==> a == level - 1
    ensures level > 128 ==> a == 127
    ensures level < -128 ==> a == 128
  {
    var l := ClampLevel(level);
    if l < 0 then 256 + l else l - 1
  }

  /** The level an amplifier stands for under that encoding: the top half of a byte counts as negative. */
  function AmplifierLevel(a: int): int {
    if a >= 128 then a - 256 else a + 1
  }

  /** The encoding loses nothing but the clamping. */
  lemma EffectRoundTrip(level: int)
    ensures AmplifierLevel(EffectAmplifier(level)) == ClampLevel(level)
  {
  }

  /** Levels that survive the clamping get distinct amplifiers. */
  lemma EffectInjective(l1: int, l2: int)
    requires -128 <= l1 <= 128 && -128 <= l2 <= 128
    ensures EffectAmplifier(l1) == EffectAmplifier(l2) ==> l1 == l2
  {
    EffectRoundTrip(l1);
    EffectRoundTrip(l2);
  }

  /** `apply_effect(player, effect, duration, level)`: the command it sends. */
  function ApplyEffect(player: string, effect: string, duration: int, level: int): (c: string)
    ensures c == Join(["/effect", player, effect, IntToDecimal(duration), IntToDecimal(EffectAmplifier(level))]) + "\n"
  {
    var ws := ["/effect", player, effect, IntToDecimal(duration), IntToDecimal(EffectAmplifier(level))];
    JoinSnoc([], "/effect");
    assert [] + ["/effect"] == ["/effect"];
    JoinSnoc(["/effect"], player);
    assert ["/effect"] + [player] == ["/effect", player];
    JoinSnoc(["/effect", player], effect);
    assert ["/effect", player] + [effect] == ["/effect", player, effect];
    JoinSnoc(["/effect", player, effect], IntToDecimal(duration));
    assert ["/effect", player, effect] + [IntToDecimal(duration)] == ["/effect", player, effect, IntToDecimal(duration)];
    JoinSnoc(["/effect", player, effect, IntToDecimal(duration)], IntToDecimal(EffectAmplifier(level)));
    assert ["/effect", player, effect, IntToDecimal(duration)] + [IntToDecimal(EffectAmplifier(level))] == ["/effect", player, effect, IntToDecimal(duration), IntToDecimal(EffectAmplifier(level))];
    "/effect" + " " + player + " " + effect + " " + IntToDecimal(duration) + " " + IntToDecimal(EffectAmplifier(level)) + "\n"
  }

  // Words of a command.

  /** Words separated by single spaces, built up word by word as the source builds its commands. */
  function Join(ws: seq<string>): string
    requires |ws| > 0
  {
    if |ws| == 1 then ws[0] else Join(ws[..|ws| - 1]) + " " + ws[|ws| - 1]
  }

  /** The first word, a space, then the rest. */
  lemma {:induction false} JoinCons(ws: seq<string>)
    requires |ws| > 1
    ensures Join(ws) == ws[0] + " " + Join(ws[1..])
    decreases |ws|
  {
    if |ws| > 2 {
      JoinCons(ws[..|ws| - 1]);
      assert ws[..|ws| - 1][1..] == ws[1..][..|ws| - 2];
    } else {
      assert ws[1..] == [ws[1]];
    }
  }

  predicate IsBlank(c: char) { c == ' ' }

  /** Cuts a string at every space. */
  function Split(s: string): (ws: seq<string>)
    ensures |ws| > 0
    decreases |s|
  {
    match FirstIndex(s, IsBlank, 0)
    case None => [s]
    case Some(i) => [s[..i]] + Split(s[i + 1..])
  }

  /** None of the words holds a space. */
  predicate Spaceless(ws: seq<string>) {
    forall w :: w in ws ==> ' ' !in w
  }

  /** Words without spaces joined by spaces split back into the same words. */
  lemma {:induction false} SplitJoin(ws: seq<string>)
    requires |ws| > 0 && Spaceless(ws)
    ensures Split(Join(ws)) == ws
    decreases |ws|
  {
    if |ws| == 1 {
      assert ws[0] in ws;
      assert FirstIndex(ws[0], IsBlank, 0).None?;
    } else {
      var s := Join(ws);
      var rest := Join(ws[1..]);
      JoinCons(ws);
      assert ws[0] in ws;
      assert FirstIndex(s, IsBlank, 0) == Some(|ws[0]|) by {
        assert s[|ws[0]|] == ' ';
        forall j | 0 <= j < |ws[0]| ensures !IsBlank(s[j]) {
          assert s[j] == ws[0][j];
        }
      }
      assert s[..|ws[0]|] == ws[0];
      assert s[|ws[0]| + 1..] == rest;
      SplitJoin(ws[1..]);
    }
  }

  // give_item and clear_inventory

  /** `if x:` on an optional string argument: it is given and not empty. */
  predicate Given(x: Option<string>) {
    x.Some? && |x.value| > 0
  }

  /** The word an optional argument adds, if any. */
  function Word(x: Option<string>): (ws: seq<string>)
    ensures |ws| <= 1
    ensures ws == [] <==> !Given(x)
  {
    if Given(x) then [x.value] else []
  }

  /** `command += ' ' + x` under `if x:`. */
  function AddWord(command: string, x: Option<string>): (c: string)
    ensures c == command + (if Given(x) then " " + x.value else "")
  {
    if Given(x) then command + " " + x.value else command
  }

  /** Lines 252-260: `/give` with the player, item and amount, then the data and the data tag where given. */
  function GiveItem(player: string, item: string, amount: int, data: Option<string>, dataTag: Option<string>): (c: string)
    ensures c == Join(["/give", player, item, IntToDecimal(amount)] + Word(data) + Word(dataTag)) + "\n"
  {
    var ws := ["/give", player, item, IntToDecimal(amount)];
    JoinSnoc([], "/give");
    assert [] + ["/give"] == ["/give"];
    JoinSnoc(["/give"], player);
    assert ["/give"] + [player] == ["/give", player];
    JoinSnoc(["/give", player], item);
    assert ["/give", player] + [item] == ["/give", player, item];
    JoinSnoc(["/give", player, item], IntToDecimal(amount));
    assert ["/give", player, item] + [IntToDecimal(amount)] == ["/give", player, item, IntToDecimal(amount)];
    JoinAppend(ws, data);
    JoinAppend(ws + Word(data), dataTag);
    AddWord(AddWord("/give" + " " + player + " " + item + " " + IntToDecimal(amount), data), dataTag) + "\n"
  }

  /**
   Lines 262-274: `/clear` with the player, then the item, the data (only
   together with the item), the maximum count and the data tag where given.
   */
  function ClearInventory(player: string, item: Option<string>, data: Option<string>, maxCount: Option<string>, dataTag: Option<string>): (c: string)
    ensures c == Join(["/clear", player] + (if Given(item) then Word(item) + Word(data) else []) + Word(maxCount) + Word(dataTag)) + "\n"
  {
    var base := ["/clear", player];
    JoinSnoc([], "/clear");
    assert [] + ["/clear"] == ["/clear"];
    JoinSnoc(["/clear"], player);
    assert ["/clear"] + [player] == ["/clear", player];
    var command := "/clear" + " " + player;
    var command := if Given(item) then AddWord(AddWord(command, item), data) else command;
    var ws := base + (if Given(item) then Word(item) + Word(data) else []);
    assert Join(ws) == command by {
      if Given(item) {
        JoinAppend(base, item);
        JoinAppend(base + Word(item), data);
        assert base + Word(item) + Word(data) == ws;
      } else {
        assert ws == base;
      }
    }
    JoinAppend(ws, maxCount);
    JoinAppend(ws + Word(maxCount), dataTag);
    AddWord(AddWord(command, maxCount), dataTag) + "\n"
  }

  /** One more word after one more space; the first word alone. */
  lemma JoinSnoc(ws: seq<string>, w: string)
    ensures |ws| == 0 ==> Join(ws + [w]) == w
    ensures |ws| > 0 ==> Join(ws + [w]) == Join(ws) + " " + w
  {
    assert (ws + [w])[..|ws|] == ws;
  }

  /** Adding an optional argument to a command adds its word to the command's words. */
  lemma JoinAppend(ws: seq<string>, x: Option<string>)
    requires |ws| > 0
    ensures Join(ws + Word(x)) == AddWord(Join(ws), x)
  {
    if Given(x) {
      assert (ws + Word(x))[..|ws|] == ws;
    } else {
      assert ws + Word(x) == ws;
    }
  }

  /** A command line is its words joined by spaces and ended by a newline. */
  lemma CommandSplits(ws: seq<string>, c: string)
    requires |ws| > 0 && Spaceless(ws) && c == Join(ws) + "\n"
    ensures Split(c[..|c| - 1]) == ws
  {
    assert c[..|c| - 1] == Join(ws);
    SplitJoin(ws);
  }

  /** Optional words without spaces keep a space-free word list space-free. */
  lemma SpacelessWithWords(fixed: seq<string>, x: Option<string>, y: Option<string>)
    requires Spaceless(fixed)
    requires x.Some? ==> ' ' !in x.value
    requires y.Some? ==> ' ' !in y.value
    ensures Spaceless(fixed + Word(x) + Word(y))
  {
    assert Spaceless(Word(x)) && Spaceless(Word(y));
  }

  /**
   The words of an `/effect` command with space-free player and effect: the
   arguments sent, where the duration reads back as given and the amplifier
   reads back as the clamped level.
   */
  lemma ApplyEffectWords(player: string, effect: string, duration: int, level: int)
    requires ' ' !in player && ' ' !in effect
    ensures var c := ApplyEffect(player, effect, duration, level);
      var ws := Split(c[..|c| - 1]);
      && |ws| == 5 && ws[0] == "/effect" && ws[1] == player && ws[2] == effect
      && ReadInt(ws[3]) == Some(duration)
      && ReadInt(ws[4]).Some? && AmplifierLevel(ReadInt(ws[4]).value) == ClampLevel(level)
  {
    var d, a := IntToDecimal(duration), IntToDecimal(EffectAmplifier(level));
    var ws := ["/effect", player, effect, d, a];
    assert Spaceless(ws) by {
      assert ' ' !in d && ' ' !in a;
    }
    CommandSplits(ws, ApplyEffect(player, effect, duration, level));
    IntRoundTrip(duration);
    IntRoundTrip(EffectAmplifier(level));
    EffectRoundTrip(level);
  }

  /** The words of a `/give` command with space-free arguments are the arguments given. */
  lemma GiveItemWords(player: string, item: string, amount: int, data: Option<string>, dataTag: Option<string>)
    requires ' ' !in player && ' ' !in item
    requires data.Some? ==> ' ' !in data.value
    requires dataTag.Some? ==> ' ' !in dataTag.value
    ensures var c := GiveItem(player, item, amount, data, dataTag);
      Split(c[..|c| - 1]) == ["/give", player, item, IntToDecimal(amount)] + Word(data) + Word(dataTag)
  {
    var d := IntToDecimal(amount);
    var fixed := ["/give", player, item, d];
    assert Spaceless(fixed) by {
      assert ' ' !in d;
    }
    SpacelessWithWords(fixed, data, dataTag);
    CommandSplits(fixed + Word(data) + Word(dataTag), GiveItem(player, item, amount, data, dataTag));
  }

  /** The words of a `/clear` command with space-free arguments: the data only follows an item. */
  lemma ClearInventoryWords(player: string, item: Option<string>, data: Option<string>, maxCount: Option<string>, dataTag: Option<string>)
    requires ' ' !in player
    requires item.Some? ==> ' ' !in item.value
    requires data.Some? ==> ' ' !in data.value
    requires maxCount.Some? ==> ' ' !in maxCount.value
    requires dataTag.Some? ==> ' ' !in dataTag.value
    ensures var c := ClearInventory(player, item, data, maxCount, dataTag);
      Split(c[..|c| - 1]) == ["/clear", player] + (if Given(item) then Word(item) + Word(data) else []) + Word(maxCount) + Word(dataTag)
  {
    var fixed := ["/clear", player] + (if Given(item) then Word(item) + Word(data) else []);
    assert Spaceless(fixed) by {
      assert Spaceless(["/clear", player]);
      assert Spaceless(Word(item)) && Spaceless(Word(data));
    }
    SpacelessWithWords(fixed, maxCount, dataTag);
    CommandSplits(fixed + Word(maxCount) + Word(dataTag), ClearInventory(player, item, data, maxCount, dataTag));
  }

  /** Without an item, the data argument of `clear_inventory` changes nothing. */
  lemma ClearIgnoresDataWithoutItem(player: string, item: Option<string>, data: Option<string>, maxCount: Option<string>, dataTag: Option<string>)
    requires !Given(item)
    ensures ClearInventory(player, item, data, maxCount, dataTag) == ClearInventory(player, None, None, maxCount, dataTag)
  {
  }
}
