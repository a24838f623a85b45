/** Selecting the one controller profile that claims a probed device. */
module ProfileRegistry {
  import opened Types

  datatype Transport = BluetoothClassicHid | BluetoothLeHid | UsbHid

  datatype ProfileMatch = Unsupported | Compatible | Exact

  function Strength(match_: ProfileMatch): nat {
    match match_
    case Unsupported => 0
    case Compatible => 1
    case Exact => 2
  }

  datatype Capabilities = Capabilities(xAxis: bool, yAxis: bool, zAxis: bool, heldDeadman: bool)

  datatype ControllerProbe = ControllerProbe(
    transport: Transport, name: Option<string>, deviceClass: bv32, descriptor: seq<bv8>)

  /** `match_` and `hasParser` stand for the two function pointers, either of which may be missing. */
  datatype ControllerProfile = ControllerProfile(
    id: Option<string>,
    displayName: Option<string>,
    transport: Transport,
    capabilities: Capabilities,
    match_: Option<ControllerProbe -> ProfileMatch>,
    hasParser: bool)

  datatype Selection = Matched(profile: ControllerProfile) | NoneSupported | Ambiguous

  predicate SupportsSafeMotion(p: ControllerProfile) {
    && p.id.Some? && p.displayName.Some? && p.match_.Some? && p.hasParser
    && p.capabilities.xAxis && p.capabilities.yAxis && p.capabilities.zAxis && p.capabilities.heldDeadman
  }

  /** How strongly a registry entry, which may be a null pointer, claims the probe. */
  function Claim(entry: Option<ControllerProfile>, probe: ControllerProbe): ProfileMatch {
    if entry.None? || !SupportsSafeMotion(entry.value) || entry.value.transport != probe.transport then Unsupported
    else entry.value.match_.value(probe)
  }

  /** The number of entries claiming the probe at one level. */
  ghost function CountAt(entries: seq<Option<ControllerProfile>>, probe: ControllerProbe, level: ProfileMatch): nat {
    if entries == [] then 0
    else
      CountAt(entries[..|entries| - 1], probe, level)
      + if Claim(entries[|entries| - 1], probe) == level then 1 else 0
  }

  /** The strongest level anyone claims. */
  ghost predicate Strongest(entries: seq<Option<ControllerProfile>>, probe: ControllerProbe, level: ProfileMatch) {
    && (level != Unsupported ==> exists i :: 0 <= i < |entries| && Claim(entries[i], probe) == level)
    && forall i :: 0 <= i < |entries| ==> Strength(Claim(entries[i], probe)) <= Strength(level)
  }

  ghost predicate AnswerAt(
    entries: seq<Option<ControllerProfile>>, probe: ControllerProbe, r: Selection, level: ProfileMatch)
  {
    && Strongest(entries, probe, level)
    && match r
       case NoneSupported => level == Unsupported
       case Ambiguous => level != Unsupported && CountAt(entries, probe, level) >= 2
       case Matched(profile) =>
         level != Unsupported && CountAt(entries, probe, level) == 1 && Claims(entries, probe, profile, level)
  }

  ghost predicate Claims(
    entries: seq<Option<ControllerProfile>>, probe: ControllerProbe, profile: ControllerProfile, level: ProfileMatch)
  {
    exists i :: 0 <= i < |entries| && entries[i] == Some(profile) && Claim(entries[i], probe) == level
  }

  /**
   * The promised answer, with no mention of registration order: nothing when nobody claims the probe,
   * ambiguous when the strongest level is claimed twice, and otherwise its only claimant.
   */
  ghost predicate Promised(entries: seq<Option<ControllerProfile>>, probe: ControllerProbe, r: Selection) {
    exists level :: AnswerAt(entries, probe, r, level)
  }

  lemma {:induction false} CountedMeansPresent(
    entries: seq<Option<ControllerProfile>>, probe: ControllerProbe, level: ProfileMatch)
    ensures CountAt(entries, probe, level) == 0 <==>
            forall i :: 0 <= i < |entries| ==> Claim(entries[i], probe) != level
  {
    if entries != [] {
      var before := entries[..|entries| - 1];
      CountedMeansPresent(before, probe, level);
      assert forall i :: 0 <= i < |before| ==> before[i] == entries[i];
    }
  }

  /** What the loop knows about the entries it has passed. */
  ghost predicate Tally(
    seen: seq<Option<ControllerProfile>>, probe: ControllerProbe,
    best: Option<ControllerProfile>, bestMatch: ProfileMatch, ambiguous: bool)
  {
    && (best.None? <==> bestMatch == Unsupported)
    && Strongest(seen, probe, bestMatch)
    && (best.Some? ==>
          && ambiguous == (CountAt(seen, probe, bestMatch) >= 2)
          && Claims(seen, probe, best.value, bestMatch))
  }

  lemma TallyGrows(
    seen: seq<Option<ControllerProfile>>, entry: Option<ControllerProfile>, probe: ControllerProbe,
    best: Option<ControllerProfile>, bestMatch: ProfileMatch, ambiguous: bool)
    requires Tally(seen, probe, best, bestMatch, ambiguous)
    ensures var claim := Claim(entry, probe);
            if claim != Unsupported && (best.None? || Strength(claim) > Strength(bestMatch)) then
              Tally(seen + [entry], probe, entry, claim, false)
            else
              Tally(seen + [entry], probe, best, bestMatch, ambiguous || (claim != Unsupported && claim == bestMatch))
  {
    hide SupportsSafeMotion;
    var now, claim := seen + [entry], Claim(entry, probe);
    assert now[..|seen|] == seen && now[|seen|] == entry;
    assert forall i :: 0 <= i < |seen| ==> now[i] == seen[i];
    CountedMeansPresent(seen, probe, claim);
    CountedMeansPresent(seen, probe, bestMatch);
    if best.Some? {
      var k :| 0 <= k < |seen| && seen[k] == Some(best.value) && Claim(seen[k], probe) == bestMatch;
      assert now[k] == seen[k];
    }
  }

  method Select(profiles: seq<Option<ControllerProfile>>, probe: ControllerProbe) returns (r: Selection)
    ensures Promised(profiles, probe, r)
  {
    hide Tally, Strongest, CountAt, SupportsSafeMotion;
    var best: Option<ControllerProfile> := None;
    var bestMatch := Unsupported;
    var ambiguous := false;
    NothingSeen(probe);
    for i := 0 to |profiles|
      invariant Tally(profiles[..i], probe, best, bestMatch, ambiguous)
    {
      assert profiles[..i + 1] == profiles[..i] + [profiles[i]];
      TallyGrows(profiles[..i], profiles[i], probe, best, bestMatch, ambiguous);
      if profiles[i].Some? && SupportsSafeMotion(profiles[i].value) && profiles[i].value.transport == probe.transport {
        var candidate := profiles[i].value;
        SafeHasMatcher(candidate);
        var claim := candidate.match_.value(probe);
        if claim != Unsupported {
          if best.None? || Strength(claim) > Strength(bestMatch) {
            best, bestMatch, ambiguous := Some(candidate), claim, false;
          } else if claim == bestMatch {
            ambiguous := true;
          }
        }
      }
    }
    assert profiles[..|profiles|] == profiles;
    if best.None? {
      r := NoneSupported;
    } else if ambiguous {
      r := Ambiguous;
    } else {
      r := Matched(best.value);
    }
    TallyAnswers(profiles, probe, best, bestMatch, ambiguous, r);
  }

  lemma SafeHasMatcher(p: ControllerProfile)
    requires SupportsSafeMotion(p)
    ensures p.match_.Some?
  {
  }

  lemma NothingSeen(probe: ControllerProbe)
    ensures Tally([], probe, None, Unsupported, false)
  {
  }

  lemma TallyAnswers(
    entries: seq<Option<ControllerProfile>>, probe: ControllerProbe,
    best: Option<ControllerProfile>, bestMatch: ProfileMatch, ambiguous: bool, r: Selection)
    requires Tally(entries, probe, best, bestMatch, ambiguous)
    requires r == if best.None? then NoneSupported else if ambiguous then Ambiguous else Matched(best.value)
    ensures Promised(entries, probe, r)
  {
    CountedMeansPresent(entries, probe, bestMatch);
    assert AnswerAt(entries, probe, r, bestMatch);
  }

  lemma {:induction false} CountIsOfMultiset(
    a: seq<Option<ControllerProfile>>, b: seq<Option<ControllerProfile>>, probe: ControllerProbe, level: ProfileMatch)
    requires multiset(a) == multiset(b)
    ensures CountAt(a, probe, level) == CountAt(b, probe, level)
    decreases |a|
  {
    if a == [] {
      assert |multiset(b)| == |b|;
    } else {
      var n := |a| - 1;
      var x := a[n];
      var j := OneRemoved(a, b);
      var rest := b[..j] + b[j + 1..];
      CountIsOfMultiset(a[..n], rest, probe, level);
      assert b == b[..j] + ([x] + b[j + 1..]);
      CountOfConcat(b[..j], [x] + b[j + 1..], probe, level);
      CountOfConcat([x], b[j + 1..], probe, level);
      CountOfConcat(b[..j], b[j + 1..], probe, level);
      assert CountAt([x], probe, level) == CountAt([], probe, level) + if Claim(x, probe) == level then 1 else 0;
    }
  }

  lemma OneRemoved(a: seq<Option<ControllerProfile>>, b: seq<Option<ControllerProfile>>) returns (j: nat)
    requires a != [] && multiset(a) == multiset(b)
    ensures j < |b| && b[j] == a[|a| - 1]
    ensures multiset(a[..|a| - 1]) == multiset(b[..j] + b[j + 1..])
  {
    var x := a[|a| - 1];
    assert x in multiset(b);
    j :| 0 <= j < |b| && b[j] == x;
    assert a == a[..|a| - 1] + [x];
    assert b == b[..j] + [x] + b[j + 1..];
    assert multiset(a) == multiset(a[..|a| - 1]) + multiset{x};
    assert multiset(b) == multiset(b[..j]) + multiset{x} + multiset(b[j + 1..]);
    assert multiset(b[..j] + b[j + 1..]) == multiset(b[..j]) + multiset(b[j + 1..]);
    assert multiset(a) - multiset{x} == multiset(a[..|a| - 1]);
    assert multiset(b) - multiset{x} == multiset(b[..j]) + multiset(b[j + 1..]);
  }

  lemma {:induction false} CountOfConcat(
    a: seq<Option<ControllerProfile>>, b: seq<Option<ControllerProfile>>, probe: ControllerProbe, level: ProfileMatch)
    ensures CountAt(a + b, probe, level) == CountAt(a, probe, level) + CountAt(b, probe, level)
  {
    if b == [] {
      assert a + b == a;
    } else {
      assert (a + b)[..|a + b| - 1] == a + b[..|b| - 1];
      CountOfConcat(a, b[..|b| - 1], probe, level);
    }
  }

  lemma StrongestIsOfMultiset(
    a: seq<Option<ControllerProfile>>, b: seq<Option<ControllerProfile>>, probe: ControllerProbe, level: ProfileMatch)
    requires multiset(a) == multiset(b) && Strongest(a, probe, level)
    ensures Strongest(b, probe, level)
  {
    forall i | 0 <= i < |b|
      ensures Strength(Claim(b[i], probe)) <= Strength(level)
    {
      assert b[i] in multiset(a);
    }
    if level != Unsupported {
      var i :| 0 <= i < |a| && Claim(a[i], probe) == level;
      assert a[i] in multiset(b);
    }
  }

  /** Two different entries at one level are counted twice. */
  lemma {:induction false} TwoEntriesCountTwice(
    entries: seq<Option<ControllerProfile>>, probe: ControllerProbe, level: ProfileMatch, i: nat, j: nat)
    requires i < j < |entries| && Claim(entries[i], probe) == Claim(entries[j], probe) == level
    ensures CountAt(entries, probe, level) >= 2
  {
    CountedMeansPresent(entries[..j], probe, level);
    assert entries[..j][i] == entries[i];
    assert entries[..j + 1][..j] == entries[..j];
    assert CountAt(entries[..j + 1], probe, level) >= 2;
    CountOfConcat(entries[..j + 1], entries[j + 1..], probe, level);
    assert entries == entries[..j + 1] + entries[j + 1..];
  }

  /**
   * There is exactly one promised answer, and it is the same for every order of registration.
   * With `Select`, the loop's answer is therefore independent of order.
   */
  lemma AnswerIgnoresOrder(
    a: seq<Option<ControllerProfile>>, b: seq<Option<ControllerProfile>>, probe: ControllerProbe,
    ra: Selection, rb: Selection)
    requires multiset(a) == multiset(b)
    requires Promised(a, probe, ra) && Promised(b, probe, rb)
    ensures ra == rb
  {
    hide Claim;
    var la :| AnswerAt(a, probe, ra, la);
    var lb :| AnswerAt(b, probe, rb, lb);
    StrongestIsOfMultiset(a, b, probe, la);
    StrongestIsUnique(b, probe, la, lb);
    CountIsOfMultiset(a, b, probe, la);
    if ra.Matched? && rb.Matched? {
      var i :| 0 <= i < |a| && a[i] == Some(ra.profile) && Claim(a[i], probe) == la;
      var j :| 0 <= j < |b| && b[j] == Some(rb.profile) && Claim(b[j], probe) == lb;
      assert a[i] in multiset(b);
      var k :| 0 <= k < |b| && b[k] == a[i];
      if k < j {
        TwoEntriesCountTwice(b, probe, la, k, j);
      } else if j < k {
        TwoEntriesCountTwice(b, probe, la, j, k);
      }
    }
  }

  lemma StrongestIsUnique(
    entries: seq<Option<ControllerProfile>>, probe: ControllerProbe, l1: ProfileMatch, l2: ProfileMatch)
    requires Strongest(entries, probe, l1) && Strongest(entries, probe, l2)
    ensures l1 == l2
  {
  }

  /** Named, able to match and to parse, with three axes and a held dead-man, on this transport, and claiming it. */
  predicate Eligible(entry: Option<ControllerProfile>, probe: ControllerProbe) {
    && entry.Some?
    && var p := entry.value;
       && p.id.Some? && p.displayName.Some? && p.match_.Some? && p.hasParser
       && p.capabilities == Capabilities(true, true, true, true)
       && p.transport == probe.transport && p.match_.value(probe) != Unsupported
  }

  function LevelOf(entry: Option<ControllerProfile>, probe: ControllerProbe): ProfileMatch
    requires Eligible(entry, probe)
  {
    entry.value.match_.value(probe)
  }

  lemma ClaimIsDocumented(entry: Option<ControllerProfile>, probe: ControllerProbe)
    ensures Claim(entry, probe) != Unsupported <==> Eligible(entry, probe)
    ensures Eligible(entry, probe) ==> Claim(entry, probe) == LevelOf(entry, probe)
  {
  }

  /** No eligible entry is exact unless this one is. */
  ghost predicate Unbeaten(entries: seq<Option<ControllerProfile>>, probe: ControllerProbe, level: ProfileMatch) {
    forall k :: 0 <= k < |entries| && Eligible(entries[k], probe) ==> LevelOf(entries[k], probe) == Exact ==> level == Exact
  }

  /** What each answer means: the one unbeaten entry, at least two of them, or no eligible entry at all. */
  lemma AnswerIsDocumented(entries: seq<Option<ControllerProfile>>, probe: ControllerProbe, r: Selection)
    requires Promised(entries, probe, r)
    ensures r.NoneSupported? ==> forall i :: 0 <= i < |entries| ==> !Eligible(entries[i], probe)
    ensures r.Matched? ==>
              exists i :: 0 <= i < |entries| && entries[i] == Some(r.profile) && Eligible(entries[i], probe)
                && (forall k :: 0 <= k < |entries| && k != i && Eligible(entries[k], probe) ==>
                      LevelOf(entries[k], probe) == Compatible && LevelOf(entries[i], probe) == Exact)
    ensures r.Ambiguous? ==>
              exists i, j :: 0 <= i < j < |entries| && Eligible(entries[i], probe) && Eligible(entries[j], probe)
                && LevelOf(entries[i], probe) == LevelOf(entries[j], probe)
                && Unbeaten(entries, probe, LevelOf(entries[i], probe))
  {
    hide Eligible, LevelOf, Claim, CountAt;
    var level :| AnswerAt(entries, probe, r, level);
    forall i | 0 <= i < |entries|
      ensures Claim(entries[i], probe) != Unsupported <==> Eligible(entries[i], probe)
      ensures Eligible(entries[i], probe) ==> Claim(entries[i], probe) == LevelOf(entries[i], probe)
    {
      ClaimIsDocumented(entries[i], probe);
    }
    if r.Matched? {
      var i :| 0 <= i < |entries| && entries[i] == Some(r.profile) && Claim(entries[i], probe) == level;
      forall k | 0 <= k < |entries| && k != i && Eligible(entries[k], probe)
        ensures LevelOf(entries[k], probe) == Compatible && LevelOf(entries[i], probe) == Exact
      {
        OneCountIsOne(entries, probe, level, i, k);
      }
    } else if r.Ambiguous? {
      var i, j := TwoCounted(entries, probe, level);
    }
  }

  lemma {:induction false} OneCountIsOne(
    entries: seq<Option<ControllerProfile>>, probe: ControllerProbe, level: ProfileMatch, i: nat, k: nat)
    requires CountAt(entries, probe, level) == 1 && i < |entries| && k < |entries| && i != k
    requires Claim(entries[i], probe) == level
    ensures Claim(entries[k], probe) != level
  {
    hide Claim;
    var n := |entries| - 1;
    var before := entries[..n];
    CountedMeansPresent(before, probe, level);
    if i < n && k < n {
      assert before[i] == entries[i] && before[k] == entries[k];
      OneCountIsOne(before, probe, level, i, k);
    } else if i == n {
      assert before[k] == entries[k];
    } else {
      assert before[i] == entries[i];
    }
  }

  lemma {:induction false} TwoCounted(entries: seq<Option<ControllerProfile>>, probe: ControllerProbe, level: ProfileMatch)
    returns (i: nat, j: nat)
    requires CountAt(entries, probe, level) >= 2
    ensures i < j < |entries| && Claim(entries[i], probe) == level && Claim(entries[j], probe) == level
  {
    hide Claim;
    var n := |entries| - 1;
    var before := entries[..n];
    CountedMeansPresent(before, probe, level);
    if CountAt(before, probe, level) >= 2 {
      i, j := TwoCounted(before, probe, level);
    } else {
      var k :| 0 <= k < n && Claim(before[k], probe) == level;
      i, j := k, n;
    }
  }
}
