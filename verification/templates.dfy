/**
 The death-message templates of `DeathEvent._process` in mc.py, and the way
 `re.match` applies one of them to a message. Every template is a chain of
 literals and greedy `(.*)` groups anchored at both ends, so a match is a way
 of cutting the message around the literals, and Python's backtracking picks
 the cut whose first group is longest, then whose second group is longest.
 Messages reaching this module hold no newline (the envelope group `(.*)`
 stops at one), so `.` matches every character and `$` only the end.
 */
module DeathTemplates {
  import opened Wrappers
  import opened Text

  /** One template; the comment on each constructor gives its regular expression. */
  datatype Template =
    | Suffix(lit: string)                   // ^(.*)lit$
    | Infix(lit: string)                    // ^(.*)lit(.*)$
    | InfixSuffix(lit: string, tail: string) // ^(.*)lit(.*)tail$
    | TwoInfix(lit: string, mid: string)    // ^(.*)lit(.*)mid(.*)$
    | Fused(lit: string, tail: string)      // ^(.*)lit(.*)$^(.*)tail$
  {
    /** `len(match.groups())`: the number of capture groups. */
    function Groups(): nat {
      match this
      case Suffix(_) => 1
      case Infix(_) => 2
      case InfixSuffix(_, _) => 2
      case TwoInfix(_, _) => 3
      case Fused(_, _) => 3
    }
  }

  /**
   `gs` are group contents with which template `t` spells out `m` exactly.
   For `Fused`, the `$` after the second group must sit at the end of `m` and
   the `^` after it at the start of `m`.
   */
  predicate Splits(t: Template, m: string, gs: seq<string>) {
    match t
    case Suffix(a) => |gs| == 1 && m == gs[0] + a
    case Infix(a) => |gs| == 2 && m == gs[0] + a + gs[1]
    case InfixSuffix(a, b) => |gs| == 2 && m == gs[0] + a + gs[1] + b
    case TwoInfix(a, b) => |gs| == 3 && m == gs[0] + a + gs[1] + b + gs[2]
    case Fused(a, b) =>
      && |gs| == 3 && m == gs[0] + a + gs[1] + gs[2] + b
      && |gs[0] + a + gs[1]| == |m| && |gs[0] + a + gs[1]| == 0
  }

  /** `re.match(t, m)` succeeds. */
  ghost predicate Matches(t: Template, m: string) {
    exists gs :: Splits(t, m, gs)
  }

  /**
   Backtracking tries longer first groups before shorter ones, and for the
   same first group longer second groups first: `hs` is reached no earlier
   than `gs`.
   */
  predicate NotBefore(hs: seq<string>, gs: seq<string>) {
    && |hs| > 0 && |gs| > 0
    && (|hs[0]| < |gs[0]| || (|hs[0]| == |gs[0]| && (|hs| < 2 || |gs| < 2 || |hs[1]| <= |gs[1]|)))
  }

  /** The groups `re.match` reports: a cut that no other cut precedes. */
  ghost predicate Greediest(t: Template, m: string, gs: seq<string>) {
    Splits(t, m, gs) && forall hs :: Splits(t, m, hs) ==> NotBefore(hs, gs)
  }

  /** `re.match(t, m)`: the groups of the match, or `None` when the template does not match. */
  function Match(t: Template, m: string): (r: Option<seq<string>>)
    ensures r.Some? ==> Greediest(t, m, r.value)
    ensures r.None? ==> !Matches(t, m)
  {
    match t
    case Suffix(a) => MatchSuffix(a, m)
    case Infix(a) => MatchInfix(a, m)
    case InfixSuffix(a, b) => MatchInfixSuffix(a, b, m)
    case TwoInfix(a, b) => MatchTwoInfix(a, b, m)
    case Fused(a, b) => MatchFused(a, b, m)
  }

  /** `^(.*)a$`: everything before the final `a`. */
  function MatchSuffix(a: string, m: string): (r: Option<seq<string>>)
    ensures r.Some? ==> Greediest(Suffix(a), m, r.value)
    ensures r.None? ==> !Matches(Suffix(a), m)
  {
    if LiteralAtEnd(m, a) then SuffixCut(m, a); Some([m[..|m| - |a|]]) else None
  }

  /** `^(.*)a(.*)`: the greedy first group ends at the last `a`. */
  function MatchInfix(a: string, m: string): (r: Option<seq<string>>)
    ensures r.Some? ==> Greediest(Infix(a), m, r.value)
    ensures r.None? ==> !Matches(Infix(a), m)
  {
    match LastOccurrence(m, a)
    case None => InfixAbsent(m, a); None
    case Some(i) => InfixCut(m, a, i); Some([m[..i], m[i + |a|..]])
  }

  /** `^(.*)a(.*)b$`: the last `a` before the final `b`. */
  function MatchInfixSuffix(a: string, b: string, m: string): (r: Option<seq<string>>)
    ensures r.Some? ==> Greediest(InfixSuffix(a, b), m, r.value)
    ensures r.None? ==> !Matches(InfixSuffix(a, b), m)
  {
    if !LiteralAtEnd(m, b) then
      assert !Matches(InfixSuffix(a, b), m) by { InfixSuffixNeedsTail(m, a, b); }
      None
    else
      var h := m[..|m| - |b|];
      match LastOccurrence(h, a)
      case None => InfixSuffixCut(m, a, b); None
      case Some(i) => InfixSuffixCut(m, a, b); Some([h[..i], h[i + |a|..]])
  }

  /** `^(.*)a(.*)b(.*)`: the last `b`, then the last `a` before it. */
  function MatchTwoInfix(a: string, b: string, m: string): (r: Option<seq<string>>)
    ensures r.Some? ==> Greediest(TwoInfix(a, b), m, r.value)
    ensures r.None? ==> !Matches(TwoInfix(a, b), m)
  {
    match LastOccurrence(m, b)
    case None =>
      assert !Matches(TwoInfix(a, b), m) by { TwoInfixNeedsMid(m, a, b); }
      None
    case Some(j) =>
      match LastOccurrence(m[..j], a)
      case None => TwoInfixCut(m, a, b, j); None
      case Some(i) => TwoInfixCut(m, a, b, j); Some([m[..i], m[i + |a|..j], m[j + |b|..]])
  }

  /** `^(.*)a(.*)$^(.*)b$`: the anchors in the middle leave only the empty message, and only for empty literals. */
  function MatchFused(a: string, b: string, m: string): (r: Option<seq<string>>)
    ensures r.Some? ==> Greediest(Fused(a, b), m, r.value)
    ensures r.None? ==> !Matches(Fused(a, b), m)
  {
    if |a| == 0 && |b| == 0 && |m| == 0 then
      assert Greediest(Fused(a, b), m, ["", "", ""]) by { FusedCuts(m, a, b); }
      Some(["", "", ""])
    else
      assert !Matches(Fused(a, b), m) by { FusedCuts(m, a, b); }
      None
  }

  lemma SuffixCut(m: string, a: string)
    requires EndsWith(m, a)
    ensures Greediest(Suffix(a), m, [m[..|m| - |a|]])
  {
    assert m == m[..|m| - |a|] + m[|m| - |a|..];
  }

  lemma InfixCut(m: string, a: string, i: nat)
    requires OccursAt(m, a, i)
    requires forall j :: i < j ==> !OccursAt(m, a, j)
    ensures Greediest(Infix(a), m, [m[..i], m[i + |a|..]])
  {
    CutAround(m, a, i);
    forall hs | Splits(Infix(a), m, hs) ensures NotBefore(hs, [m[..i], m[i + |a|..]]) {
      JoinedAround(hs[0], a, hs[1]);
    }
  }

  lemma InfixAbsent(m: string, a: string)
    requires forall j :: !OccursAt(m, a, j)
    ensures !Matches(Infix(a), m)
  {
    if hs :| Splits(Infix(a), m, hs) {
      JoinedAround(hs[0], a, hs[1]);
    }
  }

  lemma InfixSuffixNeedsTail(m: string, a: string, b: string)
    requires !EndsWith(m, b)
    ensures !Matches(InfixSuffix(a, b), m)
  {
  }

  /** With `m` ending in `b`, the cuts of `InfixSuffix(a, b)` are the cuts of `Infix(a)` on the rest. */
  lemma InfixSuffixCut(m: string, a: string, b: string)
    requires EndsWith(m, b)
    ensures var h := m[..|m| - |b|];
      && (forall hs :: Splits(InfixSuffix(a, b), m, hs) <==> Splits(Infix(a), h, hs))
      && (LastOccurrence(h, a).None? ==> !Matches(InfixSuffix(a, b), m))
      && (LastOccurrence(h, a).Some? ==> var i := LastOccurrence(h, a).value;
           Greediest(InfixSuffix(a, b), m, [h[..i], h[i + |a|..]]))
  {
    var h := m[..|m| - |b|];
    assert m == h + b;
    forall hs ensures Splits(InfixSuffix(a, b), m, hs) <==> Splits(Infix(a), h, hs) {
      if |hs| == 2 {
        if m == hs[0] + a + hs[1] + b {
          assert h == (hs[0] + a + hs[1] + b)[..|m| - |b|];
        }
      }
    }
    match LastOccurrence(h, a)
    case None =>
      if hs :| Splits(Infix(a), h, hs) {
        JoinedAround(hs[0], a, hs[1]);
      }
    case Some(i) =>
      InfixCut(h, a, i);
  }

  lemma TwoInfixNeedsMid(m: string, a: string, b: string)
    requires forall j :: !OccursAt(m, b, j)
    ensures !Matches(TwoInfix(a, b), m)
  {
    if hs :| Splits(TwoInfix(a, b), m, hs) {
      JoinedAround(hs[0] + a + hs[1], b, hs[2]);
    }
  }

  /** Any cut of `TwoInfix(a, b)` places `a` inside the part of `m` before the last `b`. */
  lemma TwoInfixCutBound(m: string, a: string, b: string, j: nat, hs: seq<string>)
    requires OccursAt(m, b, j)
    requires forall k :: j < k ==> !OccursAt(m, b, k)
    requires Splits(TwoInfix(a, b), m, hs)
    ensures OccursAt(m[..j], a, |hs[0]|) && |hs[0]| + |a| + |hs[1]| <= j
  {
    JoinedAround(hs[0] + a + hs[1], b, hs[2]);
    JoinedAround(hs[0], a, hs[1] + b + hs[2]);
    assert m == hs[0] + a + (hs[1] + b + hs[2]);
    OccursInPrefix(m, a, j, |hs[0]|);
  }

  /** Cutting at `a` at `i` and `b` at `j` spells `m` out. */
  lemma TwoInfixCutAt(m: string, a: string, b: string, i: nat, j: nat)
    requires OccursAt(m, b, j) && OccursAt(m[..j], a, i)
    ensures Splits(TwoInfix(a, b), m, [m[..i], m[i + |a|..j], m[j + |b|..]])
  {
    CutAround(m, b, j);
    CutAround(m[..j], a, i);
    assert m[..j][..i] == m[..i];
    assert m[..j][i + |a|..] == m[i + |a|..j];
  }

  /**
   The greediest cut of `TwoInfix(a, b)` puts `b` at its last occurrence `j`
   and `a` at its last occurrence that ends by `j`.
   */
  lemma TwoInfixCut(m: string, a: string, b: string, j: nat)
    requires OccursAt(m, b, j)
    requires forall k :: j < k ==> !OccursAt(m, b, k)
    ensures LastOccurrence(m[..j], a).None? ==> !Matches(TwoInfix(a, b), m)
    ensures LastOccurrence(m[..j], a).Some? ==> var i := LastOccurrence(m[..j], a).value;
      Greediest(TwoInfix(a, b), m, [m[..i], m[i + |a|..j], m[j + |b|..]])
  {
    match LastOccurrence(m[..j], a)
    case None =>
      if hs :| Splits(TwoInfix(a, b), m, hs) {
        TwoInfixCutBound(m, a, b, j, hs);
      }
    case Some(i) =>
      var gs := [m[..i], m[i + |a|..j], m[j + |b|..]];
      TwoInfixCutAt(m, a, b, i, j);
      forall hs | Splits(TwoInfix(a, b), m, hs) ensures NotBefore(hs, gs) {
        TwoInfixCutBound(m, a, b, j, hs);
      }
  }

  /**
   The `$^` in the middle of a fused template leaves room only for the empty
   message, and then only when both literals are empty.
   */
  lemma FusedCuts(m: string, a: string, b: string)
    ensures forall gs :: Splits(Fused(a, b), m, gs) <==> |a| == 0 && |b| == 0 && |m| == 0 && gs == ["", "", ""]
  {
  }

  /** Whatever `TwoInfix(a, b)` matches, `Infix(a)` matches too: its second group swallows the rest. */
  lemma InfixShadowsTwoInfix(m: string, a: string, b: string)
    requires Matches(TwoInfix(a, b), m)
    ensures Matches(Infix(a), m)
  {
    var gs :| Splits(TwoInfix(a, b), m, gs);
    assert m == gs[0] + a + (gs[1] + b + gs[2]);
    assert Splits(Infix(a), m, [gs[0], gs[1] + b + gs[2]]);
  }

  /** Whatever `Suffix(a + b)` matches, the shorter `Suffix(b)` matches too. */
  lemma ShorterSuffixShadows(m: string, a: string, b: string)
    requires Matches(Suffix(a + b), m)
    ensures Matches(Suffix(b), m)
  {
    var gs :| Splits(Suffix(a + b), m, gs);
    assert m == (gs[0] + a) + b;
    assert Splits(Suffix(b), m, [gs[0] + a]);
  }

  /** A fused template with a non-empty first literal matches nothing. */
  lemma FusedNeverMatches(m: string, a: string, b: string)
    requires |a| > 0
    ensures !Matches(Fused(a, b), m)
  {
    FusedCuts(m, a, b);
  }

  /**
   When `a` occurs in `x + a + r` nowhere after `x`, `Infix(a)` cuts there:
   everything after the literal, whatever it holds, lands in the second group.
   */
  lemma InfixKeepsTail(x: string, a: string, r: string)
    requires forall j :: |x| < j ==> !OccursAt(x + a + r, a, j)
    ensures Match(Infix(a), x + a + r) == Some([x, r])
  {
    var m := x + a + r;
    JoinedAround(x, a, r);
    assert LastOccurrence(m, a) == Some(|x|);
  }

  /** A suffix template matches only messages that end in the literal's last character. */
  lemma SuffixNeedsLastChar(m: string, a: string)
    requires |a| > 0
    ensures Matches(Suffix(a), m) ==> |m| > 0 && m[|m| - 1] == a[|a| - 1]
  {
    forall gs | Splits(Suffix(a), m, gs) ensures |m| > 0 && m[|m| - 1] == a[|a| - 1] {
      assert m[|m| - 1] == (gs[0] + a)[|gs[0]| + |a| - 1];
    }
  }

  /**
   When `b` occurs in `m = x + a + y + b + w` nowhere after `y`, and `a`
   occurs in `x + a + y` nowhere after `x`, `TwoInfix(a, b)` cuts `m` into
   `x`, `y` and `w`.
   */
  lemma TwoInfixKeeps(x: string, a: string, y: string, b: string, w: string)
    requires forall j :: |x + a + y| < j ==> !OccursAt(x + a + y + b + w, b, j)
    requires forall j :: |x| < j ==> !OccursAt(x + a + y, a, j)
    ensures Match(TwoInfix(a, b), x + a + y + b + w) == Some([x, y, w])
  {
    var h := x + a + y;
    var m := h + b + w;
    JoinedAround(h, b, w);
    assert LastOccurrence(m, b) == Some(|h|);
    assert m[..|h|] == h;
    JoinedAround(x, a, y);
    assert LastOccurrence(h, a) == Some(|x|);
    assert m[|x| + |a|..|h|] == y;
  }

  /**
   The search of `DeathEvent._process`: the first template of `ts`, from
   index `from` on, that matches, with its groups.
   */
  function FirstMatchFrom(ts: seq<Template>, m: string, from: nat): (r: Option<(nat, seq<string>)>)
    decreases |ts| - from
    ensures r.Some? ==> from <= r.value.0 < |ts| && Greediest(ts[r.value.0], m, r.value.1)
    ensures r.Some? ==> forall k :: from <= k < r.value.0 ==> !Matches(ts[k], m)
    ensures r.None? ==> forall k :: from <= k < |ts| ==> !Matches(ts[k], m)
  {
    if from >= |ts| then None
    else
      match Match(ts[from], m)
      case Some(gs) => Some((from, gs))
      case None => FirstMatchFrom(ts, m, from + 1)
  }

  /** The template `ts[k]` is the first that matches `m`, and `gs` are its groups. */
  ghost predicate ChosenBy(ts: seq<Template>, m: string, k: nat, gs: seq<string>) {
    && k < |ts|
    && Greediest(ts[k], m, gs)
    && forall j :: 0 <= j < k ==> !Matches(ts[j], m)
  }

  /** The template list of mc.py, in order, with the 41 entries the Python literal holds. */
  const DeathPatterns: seq<Template> := [
    Suffix(" was shot by arrow"),                             // 426
    Infix(" was shot by "),                                   // 427
    TwoInfix(" was shot by ", " using "),                     // 428
    Suffix(" was pricked to death"),                          // 429
    Fused(" walked into a cactus while trying to escape ", " drowned"), // 430-431
    Infix(" drowned whilst trying to escape "),               // 432
    Suffix(" experienced kinetic energy"),                    // 433
    Suffix(" blew up"),                                       // 434
    Infix(" was blown up by "),                               // 435
    Suffix(" hit the ground too hard"),                       // 436
    Suffix(" fell from a high place"),                        // 437
    Suffix(" fell off a ladder"),                             // 438
    Suffix(" fell off some vines"),                           // 439
    Suffix(" fell out of the water"),                         // 440
    Suffix(" fell into a patch of fire"),                     // 441
    Suffix(" fell into a patch of cacti"),                    // 442
    Infix(" was doomed to fall by "),                         // 443
    Infix(" was shot off some vines by "),                    // 444
    Infix(" was shot off a ladder by "),                      // 445
    Infix(" was blown from a high place by "),                // 446
    Suffix(" was squashed by a falling anvil"),               // 447
    Suffix(" was squashed by a falling block"),               // 448
    Suffix(" went up in flames"),                             // 449
    Suffix(" burned to death"),                               // 450
    Infix(" was burnt to a crisp whilst fighting "),          // 451
    Infix(" walked into a fire whilst fighting "),            // 452
    Suffix(" tried to swim in lava"),                         // 453
    Infix(" tried to swim in lava while trying to escape "),  // 454
    Suffix(" was struck by lightning"),                       // 455
    Infix(" was slain by "),                                  // 456
    TwoInfix(" was slain by ", " using "),                    // 457
    Infix(" got finished off by "),                           // 458
    TwoInfix(" got finished off by ", " using "),             // 459
    Infix(" was fireballed by "),                             // 460
    Suffix(" was killed by magic"),                           // 461
    InfixSuffix(" was killed by ", " using magic"),           // 462
    Suffix(" starved to death"),                              // 463
    Suffix(" fell out of the world"),                         // 464
    Suffix(" fell from a high place and fell out of the world"), // 465
    Suffix(" withered away"),                                 // 466
    Infix(" was pummeled by ")                                // 467
  ]
}
