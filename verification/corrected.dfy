/**
 The death template list as the authors evidently meant it: lines 430 and
 431 as two templates, and every template placed ahead of the shorter one
 that would otherwise take all of its messages (428 before 427, 457 before
 456, 459 before 458, 465 before 464). Against this list the messages that
 mc.py misreads come out as intended.
 */
module CorrectedDeaths {
  import opened Wrappers
  import opened Text
  import opened DeathTemplates
  import opened Events
  import opened DeathQuirks

  /** The 42 templates of lines 426-467, each template ahead of any that shadows it. */
  const CorrectedPatterns: seq<Template> := [
    Suffix(" was shot by arrow"),                              // 426
    TwoInfix(" was shot by ", " using "),                      // 428
    Infix(" was shot by "),                                    // 427
    Suffix(" was pricked to death"),                           // 429
    Infix(" walked into a cactus while trying to escape "),    // 430
    Suffix(" drowned"),                                        // 431
    Infix(" drowned whilst trying to escape "),                // 432
    Suffix(" experienced kinetic energy"),                     // 433
    Suffix(" blew up"),                                        // 434
    Infix(" was blown up by "),                                // 435
    Suffix(" hit the ground too hard"),                        // 436
    Suffix(" fell from a high place"),                         // 437
    Suffix(" fell off a ladder"),                              // 438
    Suffix(" fell off some vines"),                            // 439
    Suffix(" fell out of the water"),                          // 440
    Suffix(" fell into a patch of fire"),                      // 441
    Suffix(" fell into a patch of cacti"),                     // 442
    Infix(" was doomed to fall by "),                          // 443
    Infix(" was shot off some vines by "),                     // 444
    Infix(" was shot off a ladder by "),                       // 445
    Infix(" was blown from a high place by "),                 // 446
    Suffix(" was squashed by a falling anvil"),                // 447
    Suffix(" was squashed by a falling block"),                // 448
    Suffix(" went up in flames"),                              // 449
    Suffix(" burned to death"),                                // 450
    Infix(" was burnt to a crisp whilst fighting "),           // 451
    Infix(" walked into a fire whilst fighting "),             // 452
    Suffix(" tried to swim in lava"),                          // 453
    Infix(" tried to swim in lava while trying to escape "),   // 454
    Suffix(" was struck by lightning"),                        // 455
    TwoInfix(" was slain by ", " using "),                     // 457
    Infix(" was slain by "),                                   // 456
    TwoInfix(" got finished off by ", " using "),              // 459
    Infix(" got finished off by "),                            // 458
    Infix(" was fireballed by "),                              // 460
    Suffix(" was killed by magic"),                            // 461
    InfixSuffix(" was killed by ", " using magic"),            // 462
    Suffix(" starved to death"),                               // 463
    Suffix(" fell from a high place and fell out of the world"), // 465
    Suffix(" fell out of the world"),                          // 464
    Suffix(" withered away"),                                  // 466
    Infix(" was pummeled by ")                                 // 467
  ]

  /** The first five corrected templates need two spaces in a message. */
  lemma FirstFiveSpacedTwice(k: nat)
    requires k < 5
    ensures !CorrectedPatterns[k].Fused? && SpacedTwice(CorrectedPatterns[k].lit)
  {
    if k < 3 {
      FirstThreeSpacedTwice(k);
    } else if k == 3 {
      assert CorrectedPatterns[3].lit[12] == ' ' && CorrectedPatterns[3].lit[15] == ' ';
    } else {
      assert CorrectedPatterns[4].lit[37] == ' ' && CorrectedPatterns[4].lit[44] == ' ';
    }
  }

  lemma FirstThreeSpacedTwice(k: nat)
    requires k < 3
    ensures !CorrectedPatterns[k].Fused? && SpacedTwice(CorrectedPatterns[k].lit)
  {
    if k == 0 {
      assert CorrectedPatterns[0].lit[9] == ' ' && CorrectedPatterns[0].lit[12] == ' ';
    } else if k == 1 {
      assert CorrectedPatterns[1].lit[9] == ' ' && CorrectedPatterns[1].lit[12] == ' ';
    } else {
      assert CorrectedPatterns[2].lit[9] == ' ' && CorrectedPatterns[2].lit[12] == ' ';
    }
  }

  /** With the comma restored, `<x> drowned` is a death by the template of line 431. */
  lemma DrownedIsDeath(x: string)
    requires IsBareName(x)
    ensures ClassifyMessageWith(CorrectedPatterns, x + " drowned") == Death(x, None, None)
  {
    var m := x + " drowned";
    DrownedOneSpace(x);
    forall k | 0 <= k < 5 ensures !Matches(CorrectedPatterns[k], m) {
      FirstFiveSpacedTwice(k);
      TwoSpacesNeeded(CorrectedPatterns[k], m);
    }
    SuffixCut(m, " drowned");
    assert m[..|m| - |" drowned"|] == x;
    assert CorrectedPatterns[5] == Suffix(" drowned");
    assert ChosenBy(CorrectedPatterns, m, 5, [x]);
    JoinAndLeaveSpaced(m);
  }

  /** ` using ` occurs in the message only after `A was shot by B`. */
  lemma ShotWithWeaponOneUsing()
    ensures ShotWithWeapon == "A" + " was shot by " + "B" + " using " + "C"
    ensures forall j :: 15 < j ==> !OccursAt(ShotWithWeapon, " using ", j)
  {
    var m := ShotWithWeapon;
    forall j | 15 < j ensures !OccursAt(m, " using ", j) {
      if j + 7 <= |m| {
        assert m[j] != ' ';
        assert m[j..j + 7][0] == m[j];
      }
    }
  }

  /** ` was shot by ` occurs in `A was shot by B` only after `A`. */
  lemma ShotByBOneShotBy()
    ensures forall j :: 1 < j ==> !OccursAt("A" + " was shot by " + "B", " was shot by ", j)
  {
    var h := "A" + " was shot by " + "B";
    forall j | 1 < j ensures !OccursAt(h, " was shot by ", j) {
      if j + 13 <= |h| {
        assert h[j] != ' ';
        assert h[j..j + 13][0] == h[j];
      }
    }
  }

  /** The three groups of `A was shot by B using C` under the template of line 428. */
  lemma ShotWithWeaponTwoInfix()
    ensures Match(TwoInfix(" was shot by ", " using "), ShotWithWeapon) == Some(["A", "B", "C"])
  {
    ShotWithWeaponOneUsing();
    ShotByBOneShotBy();
    TwoInfixKeeps("A", " was shot by ", "B", " using ", "C");
  }

  /** The same groups under the second entry of the corrected list. */
  lemma ShotWithWeaponGroups()
    ensures Match(CorrectedPatterns[1], ShotWithWeapon) == Some(["A", "B", "C"])
  {
    var t := CorrectedPatterns[1];
    assert t == TwoInfix(" was shot by ", " using ");
    ShotWithWeaponTwoInfix();
  }

  /** With the `using` template first, `A was shot by B using C` reports the weapon `C`. */
  lemma ShotByUsingCorrected()
    ensures ClassifyMessageWith(CorrectedPatterns, ShotWithWeapon) == Death("A", Some("B"), Some("C"))
  {
    assert CorrectedPatterns[0] == DeathPatterns[0];
    ShotWithWeaponNotByArrow();
    ShotWithWeaponGroups();
    assert ChosenBy(CorrectedPatterns, ShotWithWeapon, 1, ["A", "B", "C"]);
    JoinAndLeaveEndInE(ShotWithWeapon);
  }
}
