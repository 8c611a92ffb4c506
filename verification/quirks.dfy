/**
 What the death template list of mc.py does with the messages it was written
 for. Four templates sit behind an earlier one that matches whatever they
 match (427 before 428, 456 before 457, 458 before 459, 464 before 465), and
 lines 430-431 have no comma between them, so they fuse into one template
 that matches nothing.
 */
module DeathQuirks {
  import opened Wrappers
  import opened Text
  import opened DeathTemplates
  import opened Events

  /** Some template of `ts` matches, so a first one with its groups exists. */
  lemma FirstChoice(ts: seq<Template>, m: string) returns (k: nat, gs: seq<string>)
    requires AnyMatches(ts, m)
    ensures ChosenBy(ts, m, k, gs)
  {
    match FirstMatchFrom(ts, m, 0)
    case Some((i, hs)) => k, gs := i, hs;
  }

  /** The entries with three groups are the three `using` templates and the fused one. */
  lemma ThreeGroupEntries(k: nat)
    requires k < |DeathPatterns|
    ensures DeathPatterns[k].Groups() < 3 || k == 2 || k == 4 || k == 30 || k == 32
  {
  }

  /** The fused entry of lines 430-431 matches no message. */
  lemma FusedEntryMatchesNothing(m: string)
    ensures !Matches(DeathPatterns[4], m)
  {
    FusedNeverMatches(m, DeathPatterns[4].lit, DeathPatterns[4].tail);
  }

  /** Entries 2, 30, 32 and 38 match only messages the entry just before them matches. */
  lemma EarlierEntryMatches(m: string, k: nat)
    requires k == 2 || k == 30 || k == 32 || k == 38
    requires Matches(DeathPatterns[k], m)
    ensures Matches(DeathPatterns[k - 1], m)
  {
    if k == 38 {
      Entry38Shadowed(m);
    } else {
      UsingEntryShadowed(m, k);
    }
  }

  /** Line 465 ends in the literal of line 464, so whatever it matches, line 464 matches. */
  lemma Entry38Shadowed(m: string)
    requires Matches(DeathPatterns[38], m)
    ensures Matches(DeathPatterns[37], m)
  {
    var a, b := " fell from a high place and", " fell out of the world";
    var t, u := DeathPatterns[38], DeathPatterns[37];
    assert u == Suffix(b);
    assert t == Suffix(" fell from a high place and fell out of the world");
    Entry38Literal();
    ShorterSuffixShadows(m, a, b);
  }

  /** The literal of line 465 is a prefix followed by the literal of line 464. */
  lemma Entry38Literal()
    ensures " fell from a high place and fell out of the world" == " fell from a high place and" + " fell out of the world"
  {
  }

  /** A `using` template matches only what the bare template before it matches. */
  lemma UsingEntryShadowed(m: string, k: nat)
    requires k == 2 || k == 30 || k == 32
    requires Matches(DeathPatterns[k], m)
    ensures Matches(DeathPatterns[k - 1], m)
  {
    var t, u := DeathPatterns[k], DeathPatterns[k - 1];
    assert t.TwoInfix? && u == Infix(t.lit) by {
      UsingEntries(k);
    }
    InfixShadowsTwoInfix(m, t.lit, t.mid);
  }

  /** Entries 2, 30 and 32 add ` using ` to the literal of the entry before them. */
  lemma UsingEntries(k: nat)
    requires k == 2 || k == 30 || k == 32
    ensures DeathPatterns[k].TwoInfix? && DeathPatterns[k - 1] == Infix(DeathPatterns[k].lit)
  {
    if k == 2 {
      assert DeathPatterns[1] == Infix(DeathPatterns[2].lit);
    } else if k == 30 {
      assert DeathPatterns[29] == Infix(DeathPatterns[30].lit);
    } else {
      assert DeathPatterns[31] == Infix(DeathPatterns[32].lit);
    }
  }

  /** Entries 2, 4, 30, 32 and 38 are never the template `DeathEvent._process` uses. */
  lemma ShadowedNeverChosen(m: string, k: nat, gs: seq<string>)
    requires ChosenBy(DeathPatterns, m, k, gs)
    ensures k != 2 && k != 4 && k != 30 && k != 32 && k != 38
  {
    FusedEntryMatchesNothing(m);
    assert Matches(DeathPatterns[k], m);
    if k == 2 || k == 30 || k == 32 || k == 38 {
      EarlierEntryMatches(m, k);
    }
  }

  /** No death event mc.py builds ever carries a weapon. */
  lemma WeaponNeverSet(m: string)
    ensures ParseDeath(m).Some? ==> ParseDeath(m).value.weapon.None?
    ensures ClassifyMessage(m).Death? ==> ClassifyMessage(m).weapon.None?
  {
    if AnyMatches(DeathPatterns, m) {
      var k, gs := FirstChoice(DeathPatterns, m);
      ShadowedNeverChosen(m, k, gs);
      ThreeGroupEntries(k);
      SplitsGroups(DeathPatterns[k], m, gs);
    }
  }

  /** Both join and leave messages end in `e`. */
  lemma JoinAndLeaveEndInE(m: string)
    ensures JoinShaped(m) || LeaveShaped(m) ==> |m| > 0 && m[|m| - 1] == 'e'
  {
    if JoinShaped(m) {
      var p :| IsBareName(p) && m == p + " joined the game";
      assert m[|m| - 1] == "game"[3];
    }
    if LeaveShaped(m) {
      var p :| IsBareName(p) && m == p + " left the game";
      assert m[|m| - 1] == "game"[3];
    }
  }

  /** `<x> was shot by arrow` is a death by the first template, with no killer. */
  lemma ShotByArrow(x: string)
    ensures ClassifyMessage(x + " was shot by arrow") == Death(x, None, None)
  {
    var m := x + " was shot by arrow";
    SuffixCut(m, DeathPatterns[0].lit);
    assert m[..|m| - |DeathPatterns[0].lit|] == x;
    assert ChosenBy(DeathPatterns, m, 0, [x]);
    JoinAndLeaveEndInE(m);
    assert m[|m| - 1] == 'w';
  }

  /** A message that names a weapon. */
  const ShotWithWeapon: string := "A was shot by B using C"

  /** The message is not `... was shot by arrow`. */
  lemma ShotWithWeaponNotByArrow()
    ensures !Matches(DeathPatterns[0], ShotWithWeapon)
  {
    SuffixNeedsLastChar(ShotWithWeapon, DeathPatterns[0].lit);
    assert ShotWithWeapon[22] == 'C';
  }

  /** ` was shot by ` occurs in the message only after `A`. */
  lemma ShotWithWeaponOneShotBy()
    ensures ShotWithWeapon == "A" + " was shot by " + "B using C"
    ensures forall j :: 1 < j ==> !OccursAt(ShotWithWeapon, " was shot by ", j)
  {
    var m, a := ShotWithWeapon, " was shot by ";
    forall j | 1 < j ensures !OccursAt(m, a, j) {
      if j + |a| <= |m| {
        assert m[j + 11] != 'y';
        assert m[j..j + |a|][11] == m[j + 11];
      }
    }
  }

  /** `A was shot by B using C`: the bare template of line 427 takes it, and the weapon stays in the killer. */
  lemma ShotByUsingAsWritten()
    ensures ClassifyMessage(ShotWithWeapon) == Death("A", Some("B using C"), None)
  {
    var m := ShotWithWeapon;
    assert !JoinShaped(m) && !LeaveShaped(m) by {
      JoinAndLeaveEndInE(m);
      assert m[|m| - 1] == 'C';
    }
    ShotWithWeaponChosenAsWritten();
    ChosenDeath(m, 1, ["A", "B using C"]);
  }

  /** A message that neither joins nor leaves is the death its first matching template reads. */
  lemma ChosenDeath(m: string, k: nat, gs: seq<string>)
    requires !JoinShaped(m) && !LeaveShaped(m) && ChosenBy(DeathPatterns, m, k, gs)
    ensures ClassifyMessage(m) == DeathOf(gs)
  {
    assert AnyMatches(DeathPatterns, m) by {
      assert Matches(DeathPatterns[k], m);
    }
  }

  /** The second entry is the first that matches `A was shot by B using C`, with the groups `A` and `B using C`. */
  lemma ShotWithWeaponChosenAsWritten()
    ensures ChosenBy(DeathPatterns, ShotWithWeapon, 1, ["A", "B using C"])
  {
    ShotWithWeaponNotByArrow();
    var t := DeathPatterns[1];
    assert t == Infix(" was shot by ");
    ShotWithWeaponOneShotBy();
    InfixKeepsTail("A", " was shot by ", "B using C");
  }

  // The fused entry in use: a drowning with a one-word name is no death.

  /** `m` holds at most one space character. */
  predicate AtMostOneSpace(m: string) {
    forall i, j :: 0 <= i < j < |m| ==> m[i] != ' ' || m[j] != ' '
  }

  /** A literal that holds two spaces. */
  predicate SpacedTwice(a: string) {
    exists i, j :: 0 <= i < j < |a| && a[i] == ' ' && a[j] == ' '
  }

  /** Every template of the list but the fused one has two spaces in its first literal. */
  lemma LiteralsSpacedTwice(k: nat)
    requires k < |DeathPatterns|
    ensures DeathPatterns[k].Fused? || SpacedTwice(DeathPatterns[k].lit)
  {
    if k < 4 {
      LiteralsSpacedTwiceFrom0(k);
    } else if k < 8 {
      LiteralsSpacedTwiceFrom4(k);
    } else if k < 12 {
      LiteralsSpacedTwiceFrom8(k);
    } else if k < 16 {
      LiteralsSpacedTwiceFrom12(k);
    } else if k < 20 {
      LiteralsSpacedTwiceFrom16(k);
    } else if k < 24 {
      LiteralsSpacedTwiceFrom20(k);
    } else if k < 28 {
      LiteralsSpacedTwiceFrom24(k);
    } else if k < 32 {
      LiteralsSpacedTwiceFrom28(k);
    } else if k < 36 {
      LiteralsSpacedTwiceFrom32(k);
    } else if k < 40 {
      LiteralsSpacedTwiceFrom36(k);
    } else {
      LiteralsSpacedTwiceFrom40(k);
    }
  }

  lemma LiteralsSpacedTwiceFrom0(k: nat)
    requires 0 <= k < 4 <= |DeathPatterns|
    ensures DeathPatterns[k].Fused? || SpacedTwice(DeathPatterns[k].lit)
  {
    if k == 0 {
      assert DeathPatterns[0].lit[9] == ' ' && DeathPatterns[0].lit[12] == ' ';
    } else if k == 1 {
      assert DeathPatterns[1].lit[9] == ' ' && DeathPatterns[1].lit[12] == ' ';
    } else if k == 2 {
      assert DeathPatterns[2].lit[9] == ' ' && DeathPatterns[2].lit[12] == ' ';
    } else {
      assert DeathPatterns[3].lit[12] == ' ' && DeathPatterns[3].lit[15] == ' ';
    }
  }

  lemma LiteralsSpacedTwiceFrom4(k: nat)
    requires 4 <= k < 8 <= |DeathPatterns|
    ensures DeathPatterns[k].Fused? || SpacedTwice(DeathPatterns[k].lit)
  {
    if k == 4 {
      assert DeathPatterns[4].Fused?;
    } else if k == 5 {
      assert DeathPatterns[5].lit[25] == ' ' && DeathPatterns[5].lit[32] == ' ';
    } else if k == 6 {
      assert DeathPatterns[6].lit[12] == ' ' && DeathPatterns[6].lit[20] == ' ';
    } else {
      assert DeathPatterns[7].lit[0] == ' ' && DeathPatterns[7].lit[5] == ' ';
    }
  }

  lemma LiteralsSpacedTwiceFrom8(k: nat)
    requires 8 <= k < 12 <= |DeathPatterns|
    ensures DeathPatterns[k].Fused? || SpacedTwice(DeathPatterns[k].lit)
  {
    if k == 8 {
      assert DeathPatterns[8].lit[13] == ' ' && DeathPatterns[8].lit[16] == ' ';
    } else if k == 9 {
      assert DeathPatterns[9].lit[15] == ' ' && DeathPatterns[9].lit[19] == ' ';
    } else if k == 10 {
      assert DeathPatterns[10].lit[12] == ' ' && DeathPatterns[10].lit[17] == ' ';
    } else {
      assert DeathPatterns[11].lit[9] == ' ' && DeathPatterns[11].lit[11] == ' ';
    }
  }

  lemma LiteralsSpacedTwiceFrom12(k: nat)
    requires 12 <= k < 16 <= |DeathPatterns|
    ensures DeathPatterns[k].Fused? || SpacedTwice(DeathPatterns[k].lit)
  {
    if k == 12 {
      assert DeathPatterns[12].lit[9] == ' ' && DeathPatterns[12].lit[14] == ' ';
    } else if k == 13 {
      assert DeathPatterns[13].lit[12] == ' ' && DeathPatterns[13].lit[16] == ' ';
    } else if k == 14 {
      assert DeathPatterns[14].lit[18] == ' ' && DeathPatterns[14].lit[21] == ' ';
    } else {
      assert DeathPatterns[15].lit[18] == ' ' && DeathPatterns[15].lit[21] == ' ';
    }
  }

  lemma LiteralsSpacedTwiceFrom16(k: nat)
    requires 16 <= k < 20 <= |DeathPatterns|
    ensures DeathPatterns[k].Fused? || SpacedTwice(DeathPatterns[k].lit)
  {
    if k == 16 {
      assert DeathPatterns[16].lit[19] == ' ' && DeathPatterns[16].lit[22] == ' ';
    } else if k == 17 {
      assert DeathPatterns[17].lit[24] == ' ' && DeathPatterns[17].lit[27] == ' ';
    } else if k == 18 {
      assert DeathPatterns[18].lit[22] == ' ' && DeathPatterns[18].lit[25] == ' ';
    } else {
      assert DeathPatterns[19].lit[28] == ' ' && DeathPatterns[19].lit[31] == ' ';
    }
  }

  lemma LiteralsSpacedTwiceFrom20(k: nat)
    requires 20 <= k < 24 <= |DeathPatterns|
    ensures DeathPatterns[k].Fused? || SpacedTwice(DeathPatterns[k].lit)
  {
    if k == 20 {
      assert DeathPatterns[20].lit[18] == ' ' && DeathPatterns[20].lit[26] == ' ';
    } else if k == 21 {
      assert DeathPatterns[21].lit[18] == ' ' && DeathPatterns[21].lit[26] == ' ';
    } else if k == 22 {
      assert DeathPatterns[22].lit[8] == ' ' && DeathPatterns[22].lit[11] == ' ';
    } else {
      assert DeathPatterns[23].lit[7] == ' ' && DeathPatterns[23].lit[10] == ' ';
    }
  }

  lemma LiteralsSpacedTwiceFrom24(k: nat)
    requires 24 <= k < 28 <= |DeathPatterns|
    ensures DeathPatterns[k].Fused? || SpacedTwice(DeathPatterns[k].lit)
  {
    if k == 24 {
      assert DeathPatterns[24].lit[28] == ' ' && DeathPatterns[24].lit[37] == ' ';
    } else if k == 25 {
      assert DeathPatterns[25].lit[26] == ' ' && DeathPatterns[25].lit[35] == ' ';
    } else if k == 26 {
      assert DeathPatterns[26].lit[14] == ' ' && DeathPatterns[26].lit[17] == ' ';
    } else {
      assert DeathPatterns[27].lit[38] == ' ' && DeathPatterns[27].lit[45] == ' ';
    }
  }

  lemma LiteralsSpacedTwiceFrom28(k: nat)
    requires 28 <= k < 32 <= |DeathPatterns|
    ensures DeathPatterns[k].Fused? || SpacedTwice(DeathPatterns[k].lit)
  {
    if k == 28 {
      assert DeathPatterns[28].lit[11] == ' ' && DeathPatterns[28].lit[14] == ' ';
    } else if k == 29 {
      assert DeathPatterns[29].lit[10] == ' ' && DeathPatterns[29].lit[13] == ' ';
    } else if k == 30 {
      assert DeathPatterns[30].lit[10] == ' ' && DeathPatterns[30].lit[13] == ' ';
    } else {
      assert DeathPatterns[31].lit[17] == ' ' && DeathPatterns[31].lit[20] == ' ';
    }
  }

  lemma LiteralsSpacedTwiceFrom32(k: nat)
    requires 32 <= k < 36 <= |DeathPatterns|
    ensures DeathPatterns[k].Fused? || SpacedTwice(DeathPatterns[k].lit)
  {
    if k == 32 {
      assert DeathPatterns[32].lit[17] == ' ' && DeathPatterns[32].lit[20] == ' ';
    } else if k == 33 {
      assert DeathPatterns[33].lit[15] == ' ' && DeathPatterns[33].lit[18] == ' ';
    } else if k == 34 {
      assert DeathPatterns[34].lit[11] == ' ' && DeathPatterns[34].lit[14] == ' ';
    } else {
      assert DeathPatterns[35].lit[11] == ' ' && DeathPatterns[35].lit[14] == ' ';
    }
  }

  lemma LiteralsSpacedTwiceFrom36(k: nat)
    requires 36 <= k < 40 <= |DeathPatterns|
    ensures DeathPatterns[k].Fused? || SpacedTwice(DeathPatterns[k].lit)
  {
    if k == 36 {
      assert DeathPatterns[36].lit[8] == ' ' && DeathPatterns[36].lit[11] == ' ';
    } else if k == 37 {
      assert DeathPatterns[37].lit[12] == ' ' && DeathPatterns[37].lit[16] == ' ';
    } else if k == 38 {
      assert DeathPatterns[38].lit[39] == ' ' && DeathPatterns[38].lit[43] == ' ';
    } else {
      assert DeathPatterns[39].lit[0] == ' ' && DeathPatterns[39].lit[9] == ' ';
    }
  }

  lemma LiteralsSpacedTwiceFrom40(k: nat)
    requires 40 <= k < 41 <= |DeathPatterns|
    ensures DeathPatterns[k].Fused? || SpacedTwice(DeathPatterns[k].lit)
  {
    assert DeathPatterns[40].lit[13] == ' ' && DeathPatterns[40].lit[16] == ' ';
  }

  /** A message holding a literal with two spaces holds two spaces itself. */
  lemma TwoSpacesCarryOver(m: string, a: string, i: nat)
    requires OccursAt(m, a, i) && SpacedTwice(a)
    ensures !AtMostOneSpace(m)
  {
    var j, j' :| 0 <= j < j' < |a| && a[j] == ' ' && a[j'] == ' ';
    assert m[i + j] == a[j] && m[i + j'] == a[j'];
  }

  /** Every cut of a template other than a fused one holds its first literal right after the first group. */
  lemma LiteralAfterFirstGroup(t: Template, m: string, gs: seq<string>)
    requires !t.Fused? && Splits(t, m, gs)
    ensures OccursAt(m, t.lit, |gs[0]|)
  {
    match t
    case Suffix(a) => JoinedAround(gs[0], a, "");
    case Infix(a) => JoinedAround(gs[0], a, gs[1]);
    case InfixSuffix(a, b) =>
      assert m == gs[0] + a + (gs[1] + b);
      JoinedAround(gs[0], a, gs[1] + b);
    case TwoInfix(a, b) =>
      assert m == gs[0] + a + (gs[1] + b + gs[2]);
      JoinedAround(gs[0], a, gs[1] + b + gs[2]);
  }

  /** A template whose literal has two spaces matches no message with fewer. */
  lemma TwoSpacesNeeded(t: Template, m: string)
    requires !t.Fused? && SpacedTwice(t.lit)
    ensures Matches(t, m) ==> !AtMostOneSpace(m)
  {
    forall gs | Splits(t, m, gs) ensures !AtMostOneSpace(m) {
      LiteralAfterFirstGroup(t, m, gs);
      TwoSpacesCarryOver(m, t.lit, |gs[0]|);
    }
  }

  /** No template of the list matches a message with at most one space. */
  lemma OneSpaceMatchesNothing(m: string)
    requires AtMostOneSpace(m)
    ensures !AnyMatches(DeathPatterns, m)
  {
    forall k | 0 <= k < |DeathPatterns| ensures !Matches(DeathPatterns[k], m) {
      EntryNeedsTwoSpaces(m, k);
    }
  }

  lemma EntryNeedsTwoSpaces(m: string, k: nat)
    requires k < |DeathPatterns|
    ensures Matches(DeathPatterns[k], m) ==> !AtMostOneSpace(m)
  {
    var t := DeathPatterns[k];
    LiteralsSpacedTwice(k);
    if t.Fused? {
      FusedNeverMatches(m, t.lit, t.tail);
    } else {
      TwoSpacesNeeded(t, m);
    }
  }

  /** Join and leave messages hold at least two spaces. */
  lemma JoinAndLeaveSpaced(m: string)
    ensures JoinShaped(m) || LeaveShaped(m) ==> !AtMostOneSpace(m)
  {
    if JoinShaped(m) {
      var p :| IsBareName(p) && m == p + " joined the game";
      assert m[|p|] == ' ' && m[|p| + 7] == ' ';
    }
    if LeaveShaped(m) {
      var p :| IsBareName(p) && m == p + " left the game";
      assert m[|p|] == ' ' && m[|p| + 5] == ' ';
    }
  }

  /** A one-word name followed by ` drowned` has a single space. */
  lemma DrownedOneSpace(x: string)
    requires IsBareName(x)
    ensures AtMostOneSpace(x + " drowned")
  {
    var m := x + " drowned";
    assert forall i :: 0 <= i < |x| ==> m[i] == x[i];
    assert forall i :: |x| < i < |m| ==> m[i] == "drowned"[i - |x| - 1];
  }

  /** `<x> drowned`, the message of line 431, never becomes a death event. */
  lemma DrownedIsNotDeath(x: string)
    requires IsBareName(x)
    ensures var b := ClassifyMessage(x + " drowned"); b.Chat? || b.Generic?
  {
    DrownedOneSpace(x);
    OneSpaceMatchesNothing(x + " drowned");
    JoinAndLeaveSpaced(x + " drowned");
  }
}
