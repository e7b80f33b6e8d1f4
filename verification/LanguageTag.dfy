/**
 Language tags and ranges (soprano/languagetag.cpp), after sections 3.3.1, 3.3.2 and 3.4 of RFC 4647.

 A tag is its normalised string; the empty string is the empty tag.
 */
module LanguageTag {
  const WILDCARD := "*"
  const PRIVATE_USE := "x"
  const DELIMITER := '-'

  // A split tag or range has at least one subtag.
  type SubTagList = subs: seq<string> | |subs| > 0 witness [""]

  datatype MatchFilter = Basic | Extended | Unrecognised

  // ----- Subtags -----

  /** QString::split on "-", keeping empty parts. */
  function SubTags(tag: string): SubTagList {
    if tag == "" then [""]
    else
      var rest := SubTags(tag[1..]);
      if tag[0] == DELIMITER then [""] + rest else [[tag[0]] + rest[0]] + rest[1..]
  }

  function Joined(subs: SubTagList): string {
    if |subs| == 1 then subs[0] else subs[0] + [DELIMITER] + Joined(subs[1..])
  }

  /** Splitting loses nothing: the subtags, joined again, are the tag, and none holds a delimiter. */
  lemma {:induction false} SubTagsRoundTrip(tag: string)
    ensures Joined(SubTags(tag)) == tag
    ensures forall sub <- SubTags(tag) :: DELIMITER !in sub
  {
    if tag != "" {
      SubTagsRoundTrip(tag[1..]);
      var rest, subs := SubTags(tag[1..]), SubTags(tag);
      if tag[0] == DELIMITER {
        assert subs[1..] == rest;
      } else if |rest| > 1 {
        assert subs[1..] == rest[1..];
        assert Joined(subs) == ([tag[0]] + rest[0]) + [DELIMITER] + Joined(rest[1..]);
        assert Joined(subs) == [tag[0]] + Joined(rest);
      }
      assert tag == [tag[0]] + tag[1..];
    }
  }

  // ----- Basic filtering -----

  predicate MatchBasicString(tag: string, range: string) {
    if range == WILDCARD then true
    else if |range| > |tag| then false
    else if tag == range then true
    else if |range| == |tag| then false
    else tag[..|range|] == range && tag[|range|] == DELIMITER
  }

  /** The range is the wildcard alone, or a prefix of the tag in whole subtags. */
  predicate IsBasicMatch(tag: seq<string>, range: seq<string>) {
    range != [] && (range == [WILDCARD] || range <= tag)
  }

  method MatchBasic(tagSub: seq<string>, rangeSub: seq<string>) returns (matched: bool)
    ensures matched == IsBasicMatch(tagSub, rangeSub)
  {
    if |rangeSub| == 0 { return false; }
    if |rangeSub| == 1 && rangeSub[0] == WILDCARD { return true; }
    if |rangeSub| > |tagSub| { return false; }
    for i := 0 to |rangeSub|
      invariant rangeSub[..i] == tagSub[..i]
    {
      if tagSub[i] != rangeSub[i] { return false; }
    }
    return true;
  }

  lemma PrefixTail(a: seq<string>, b: seq<string>)
    requires |a| > 0 && |b| > 0
    ensures a <= b <==> a[0] == b[0] && a[1..] <= b[1..]
  {
    if a[0] == b[0] && a[1..] <= b[1..] {
      assert b[..|a|] == [b[0]] + b[1..][..|a| - 1];
    }
  }

  // The subtags of one string are a prefix of those of another.
  lemma {:induction false} SubTagPrefix(tag: string, range: string)
    ensures SubTags(range) <= SubTags(tag) <==> range == tag || range + [DELIMITER] <= tag
  {
    var r, t := SubTags(range), SubTags(tag);
    PrefixTail(r, t);
    if range == "" {
      assert r[1..] == [];
      assert range + [DELIMITER] == [DELIMITER];
    } else if tag != "" {
      var rest, restT := SubTags(range[1..]), SubTags(tag[1..]);
      SubTagPrefix(tag[1..], range[1..]);
      PrefixTail(rest, restT);
      assert range == [range[0]] + range[1..] && tag == [tag[0]] + tag[1..];
      assert range + [DELIMITER] == [range[0]] + (range[1..] + [DELIMITER]);
      if range[0] == DELIMITER && tag[0] == DELIMITER {
        assert r[1..] == rest && t[1..] == restT;
      } else if range[0] != DELIMITER && tag[0] != DELIMITER {
        assert r[1..] == rest[1..] && t[1..] == restT[1..];
        assert r[0][0] == range[0] && t[0][0] == tag[0];
        assert r[0][1..] == rest[0] && t[0][1..] == restT[0];
      } else {
        assert range[0] != tag[0];
      }
    }
  }

  /** Basic matching of strings and of their subtags agree, for all strings. */
  lemma BasicFormsAgree(tag: string, range: string)
    ensures MatchBasicString(tag, range) == IsBasicMatch(SubTags(tag), SubTags(range))
  {
    SubTagPrefix(tag, range);
    SubTagsRoundTrip(range);
    if SubTags(range) == [WILDCARD] { assert range == WILDCARD; }
    if range == WILDCARD {
      assert SubTags(range[1..]) == [""];
      assert SubTags(range) == [WILDCARD];
    }
    if |range| < |tag| {
      assert range + [DELIMITER] <= tag <==> tag[..|range|] == range && tag[|range|] == DELIMITER by {
        assert tag[..|range| + 1] == tag[..|range|] + [tag[|range|]];
      }
    }
  }

  // ----- Extended filtering -----

  // The subtags of a range that must be found: all but the wildcards.
  function Wanted(range: seq<string>): seq<string> {
    if range == [] then []
    else if range[0] == WILDCARD then Wanted(range[1..])
    else [range[0]] + Wanted(range[1..])
  }

  /**
   The wanted subtags stand at increasing positions p of the tag, and no one-character subtag is
   skipped before the last of them.
   */
  ghost predicate Placement(tag: seq<string>, wanted: seq<string>, p: seq<nat>) {
    && |p| == |wanted|
    && (forall i, j | 0 <= i < j < |p| :: p[i] < p[j])
    && (forall i | 0 <= i < |p| :: p[i] < |tag| && tag[p[i]] == wanted[i])
    && (forall k, i | 0 <= i < |p| && 0 <= k < p[i] :: |tag[k]| != 1 || k in p)
  }

  ghost predicate Placeable(tag: seq<string>, wanted: seq<string>) {
    exists p :: Placement(tag, wanted, p)
  }

  ghost predicate IsExtendedMatch(tag: seq<string>, range: seq<string>)
    requires |tag| > 0 && |range| > 0
  {
    (tag[0] == range[0] || range[0] == WILDCARD) && Placeable(tag[1..], Wanted(range[1..]))
  }

  lemma PlaceNothing(tag: seq<string>)
    ensures Placeable(tag, [])
  {
    assert Placement(tag, [], []);
  }

  function Shifted(p: seq<nat>): seq<nat> {
    seq(|p|, i requires 0 <= i < |p| => p[i] + 1)
  }

  function Unshifted(p: seq<nat>): (q: seq<nat>)
    requires forall i | 0 <= i < |p| :: p[i] > 0
  {
    seq(|p|, i requires 0 <= i < |p| => p[i] - 1)
  }

  lemma ShiftedMembers(p: seq<nat>, k: nat)
    ensures k in p ==> k + 1 in Shifted(p)
  {
    if k in p {
      var i :| 0 <= i < |p| && p[i] == k;
      assert Shifted(p)[i] == k + 1;
    }
  }

  lemma UnshiftedMembers(p: seq<nat>, k: nat)
    requires forall i | 0 <= i < |p| :: p[i] > 0
    ensures k + 1 in p ==> k in Unshifted(p)
  {
    if k + 1 in p {
      var i :| 0 <= i < |p| && p[i] == k + 1;
      assert Unshifted(p)[i] == k;
    }
  }

  lemma SkipForward(tag: seq<string>, wanted: seq<string>, p: seq<nat>)
    requires tag != [] && wanted != [] && tag[0] != wanted[0] && Placement(tag, wanted, p)
    ensures |tag[0]| != 1 && Placeable(tag[1..], wanted)
  {
    assert p[0] > 0;
    assert 0 !in p;
    var q := Unshifted(p);
    forall k, i | 0 <= i < |q| && 0 <= k < q[i] ensures |tag[1..][k]| != 1 || k in q {
      assert |tag[k + 1]| != 1 || k + 1 in p;
      UnshiftedMembers(p, k);
    }
    assert Placement(tag[1..], wanted, q);
  }

  lemma SkipBackward(tag: seq<string>, wanted: seq<string>, q: seq<nat>)
    requires tag != [] && |tag[0]| != 1 && Placement(tag[1..], wanted, q)
    ensures Placeable(tag, wanted)
  {
    var p := Shifted(q);
    forall k, i | 0 <= i < |p| && 0 <= k < p[i] ensures |tag[k]| != 1 || k in p {
      if k > 0 {
        assert |tag[1..][k - 1]| != 1 || k - 1 in q;
        ShiftedMembers(q, k - 1);
      }
    }
    assert Placement(tag, wanted, p);
  }

  // The first tag subtag is not the first wanted one: it must be skipped, and may be unless it has one character.
  lemma SkipFirst(tag: seq<string>, wanted: seq<string>)
    requires tag != [] && wanted != [] && tag[0] != wanted[0]
    ensures Placeable(tag, wanted) <==> |tag[0]| != 1 && Placeable(tag[1..], wanted)
  {
    hide Placement;
    if Placeable(tag, wanted) {
      var p :| Placement(tag, wanted, p);
      SkipForward(tag, wanted, p);
    }
    if |tag[0]| != 1 && Placeable(tag[1..], wanted) {
      var q :| Placement(tag[1..], wanted, q);
      SkipBackward(tag, wanted, q);
    }
  }

  lemma TakeForward(tag: seq<string>, wanted: seq<string>, p: seq<nat>)
    requires tag != [] && wanted != [] && tag[0] == wanted[0] && Placement(tag, wanted, p)
    ensures Placeable(tag[1..], wanted[1..])
  {
    var later := p[1..];
    assert forall i | 0 <= i < |later| :: later[i] == p[i + 1] && later[i] > 0;
    var q := Unshifted(later);
    forall k, i | 0 <= i < |q| && 0 <= k < q[i] ensures |tag[1..][k]| != 1 || k in q {
      assert k + 1 < p[i + 1];
      assert |tag[k + 1]| != 1 || k + 1 in p;
      if |tag[k + 1]| == 1 {
        // p[0] is not k + 1: position 0 would have been skipped, and it holds the same subtag
        assert k + 1 in later;
        UnshiftedMembers(later, k);
      }
    }
    assert Placement(tag[1..], wanted[1..], q);
  }

  lemma TakeBackward(tag: seq<string>, wanted: seq<string>, q: seq<nat>)
    requires tag != [] && wanted != [] && tag[0] == wanted[0] && Placement(tag[1..], wanted[1..], q)
    ensures Placeable(tag, wanted)
  {
    var p := [0] + Shifted(q);
    forall k, i | 0 <= i < |p| && 0 <= k < p[i] ensures |tag[k]| != 1 || k in p {
      if k > 0 {
        assert |tag[1..][k - 1]| != 1 || k - 1 in q;
        ShiftedMembers(q, k - 1);
      }
    }
    assert Placement(tag, wanted, p);
  }

  // The first tag subtag is the first wanted one: taking it loses no placement.
  lemma TakeFirst(tag: seq<string>, wanted: seq<string>)
    requires tag != [] && wanted != [] && tag[0] == wanted[0]
    ensures Placeable(tag, wanted) <==> Placeable(tag[1..], wanted[1..])
  {
    hide Placement;
    if Placeable(tag, wanted) {
      var p :| Placement(tag, wanted, p);
      TakeForward(tag, wanted, p);
    }
    if Placeable(tag[1..], wanted[1..]) {
      var q :| Placement(tag[1..], wanted[1..], q);
      TakeBackward(tag, wanted, q);
    }
  }

  lemma PlaceInNothing(wanted: seq<string>)
    requires wanted != []
    ensures !Placeable([], wanted)
  {
    forall p ensures !Placement([], wanted, p) {
      assert |p| > 0 ==> p[0] >= 0;
    }
  }

  /** The greedy matcher decides the declarative relation. */
  method MatchExtended(tagSub: seq<string>, rangeSub: seq<string>) returns (matched: bool)
    requires |tagSub| > 0 && |rangeSub| > 0
    ensures matched == IsExtendedMatch(tagSub, rangeSub)
  {
    if tagSub[0] != rangeSub[0] && rangeSub[0] != WILDCARD { return false; }
    var t, r := 1, 1;
    while r < |rangeSub|
      invariant 1 <= t <= |tagSub| && 1 <= r <= |rangeSub|
      invariant Placeable(tagSub[1..], Wanted(rangeSub[1..])) == Placeable(tagSub[t..], Wanted(rangeSub[r..]))
      decreases |rangeSub| - r, |tagSub| - t
    {
      var curRangeSub := rangeSub[r];
      assert rangeSub[r..][1..] == rangeSub[r + 1..];
      if curRangeSub == WILDCARD {
        r := r + 1;
        continue;
      }
      if t >= |tagSub| {
        assert tagSub[t..] == [];
        PlaceInNothing(Wanted(rangeSub[r..]));
        return false;
      }
      var curTagSub := tagSub[t];
      assert tagSub[t..][1..] == tagSub[t + 1..];
      if curTagSub == curRangeSub {
        TakeFirst(tagSub[t..], Wanted(rangeSub[r..]));
        assert Wanted(rangeSub[r..])[1..] == Wanted(rangeSub[r + 1..]);
        t, r := t + 1, r + 1;
        continue;
      }
      SkipFirst(tagSub[t..], Wanted(rangeSub[r..]));
      if |curTagSub| == 1 { return false; }
      t := t + 1;
    }
    assert rangeSub[r..] == [];
    PlaceNothing(tagSub[t..]);
    return true;
  }

  lemma {:induction false} WantedIsFromRange(range: seq<string>)
    ensures forall sub <- Wanted(range) :: sub in range && sub != WILDCARD
  {
    if range != [] { WantedIsFromRange(range[1..]); }
  }

  // Nothing is placed on or behind a one-character subtag that is not wanted.
  lemma PlaceBefore(tag: seq<string>, wanted: seq<string>, k: nat)
    requires k < |tag| && |tag[k]| == 1 && tag[k] !in wanted
    ensures Placeable(tag, wanted) <==> Placeable(tag[..k], wanted)
  {
    if Placeable(tag, wanted) {
      var p :| Placement(tag, wanted, p);
      assert forall i | 0 <= i < |p| :: wanted[i] != tag[k] && p[i] != k;
      assert Placement(tag[..k], wanted, p);
    }
    if Placeable(tag[..k], wanted) {
      var p :| Placement(tag[..k], wanted, p);
      assert Placement(tag, wanted, p);
    }
  }

  /** Extended matching never looks past a one-character subtag that the range does not name. */
  lemma OneCharacterBlocks(tag: SubTagList, range: SubTagList, k: nat)
    requires 0 < k < |tag| && |tag[k]| == 1 && tag[k] !in range
    ensures IsExtendedMatch(tag, range) <==> IsExtendedMatch(tag[..k], range)
  {
    WantedIsFromRange(range[1..]);
    assert tag[k] !in Wanted(range[1..]);
    assert tag[1..][k - 1] == tag[k] && tag[1..][..k - 1] == tag[..k][1..];
    PlaceBefore(tag[1..], Wanted(range[1..]), k - 1);
  }

  // Positions behind the first k make room for one more.
  function Spread(p: seq<nat>, k: nat): seq<nat> {
    seq(|p|, i requires 0 <= i < |p| => if p[i] < k then p[i] else p[i] + 1)
  }

  lemma SpreadMembers(p: seq<nat>, k: nat, n: nat)
    requires n in p
    ensures (if n < k then n else n + 1) in Spread(p, k)
  {
    var i :| 0 <= i < |p| && p[i] == n;
    assert Spread(p, k)[i] == if n < k then n else n + 1;
  }

  lemma PlaceAround(tag: seq<string>, wanted: seq<string>, sub: string, k: nat, p: seq<nat>)
    requires k <= |tag| && |sub| != 1 && Placement(tag, wanted, p)
    ensures Placement(tag[..k] + [sub] + tag[k..], wanted, Spread(p, k))
  {
    var more, q := tag[..k] + [sub] + tag[k..], Spread(p, k);
    assert forall n | 0 <= n < |tag| :: more[if n < k then n else n + 1] == tag[n];
    assert forall i | 0 <= i < |p| :: q[i] == if p[i] < k then p[i] else p[i] + 1;
    forall n, i | 0 <= i < |q| && 0 <= n < q[i] ensures |more[n]| != 1 || n in q {
      if n != k {
        var before := if n < k then n else n - 1;
        assert |tag[before]| != 1 || before in p;
        if before in p { SpreadMembers(p, k, before); }
      }
    }
  }

  /** It looks past any other subtag: one more, anywhere behind the first, loses no match. */
  lemma OthersAreSkipped(tag: SubTagList, range: SubTagList, sub: string, k: nat)
    requires 0 < k <= |tag| && |sub| != 1 && IsExtendedMatch(tag, range)
    ensures IsExtendedMatch(tag[..k] + [sub] + tag[k..], range)
  {
    var p :| Placement(tag[1..], Wanted(range[1..]), p);
    PlaceAround(tag[1..], Wanted(range[1..]), sub, k - 1, p);
    assert (tag[..k] + [sub] + tag[k..])[1..] == tag[1..][..k - 1] + [sub] + tag[1..][k - 1..];
  }

  /** The first subtags must be equal, or the range's a wildcard, which then stands for whatever the tag has. */
  lemma FirstSubTagDecides(tag: SubTagList, range: SubTagList)
    ensures range[0] != tag[0] && range[0] != "*" ==> !IsExtendedMatch(tag, range)
    ensures range[0] == "*" ==> (IsExtendedMatch(tag, range) <==> IsExtendedMatch(tag, [tag[0]] + range[1..]))
    ensures IsExtendedMatch(tag, ["*"]) && IsExtendedMatch(tag, [tag[0]])
  {
    assert ([tag[0]] + range[1..])[1..] == range[1..];
    PlaceNothing(tag[1..]);
  }

  lemma {:induction false} WantedWithWildcard(range: seq<string>, k: nat)
    requires k <= |range|
    ensures Wanted(range[..k] + ["*"] + range[k..]) == Wanted(range)
    decreases k
  {
    var more := range[..k] + ["*"] + range[k..];
    if k == 0 {
      assert more[1..] == range;
    } else {
      WantedWithWildcard(range[1..], k - 1);
      assert more[1..] == range[1..][..k - 1] + ["*"] + range[1..][k - 1..];
    }
  }

  /** A wildcard anywhere behind the first subtag makes no difference. */
  lemma LaterWildcardsAreIgnored(tag: SubTagList, range: SubTagList, k: nat)
    requires 0 < k <= |range|
    ensures IsExtendedMatch(tag, range[..k] + ["*"] + range[k..]) <==> IsExtendedMatch(tag, range)
  {
    WantedWithWildcard(range[1..], k - 1);
    assert (range[..k] + ["*"] + range[k..])[1..] == range[1..][..k - 1] + ["*"] + range[1..][k - 1..];
  }

  /** Basic matching implies extended matching for ranges without a wildcard. */
  lemma BasicImpliesExtended(tag: seq<string>, range: seq<string>)
    requires |tag| > 0 && WILDCARD !in range && IsBasicMatch(tag, range)
    ensures IsExtendedMatch(tag, range)
  {
    PlacePrefix(tag[1..], range[1..]);
  }

  lemma {:induction false} PlacePrefix(tag: seq<string>, range: seq<string>)
    requires WILDCARD !in range && range <= tag
    ensures Placeable(tag, Wanted(range))
  {
    if range == [] {
      PlaceNothing(tag);
    } else {
      PlacePrefix(tag[1..], range[1..]);
      assert Wanted(range)[1..] == Wanted(range[1..]);
      TakeFirst(tag, Wanted(range));
    }
  }

  // A wildcard subtag that is followed, somewhere, by another subtag.
  predicate WildcardBeforeSubTag(subs: seq<string>) {
    exists i, j | 0 <= i < j < |subs| :: subs[i] == WILDCARD && subs[j] != WILDCARD
  }

  lemma {:induction false} WantedEmpty(subs: seq<string>)
    ensures Wanted(subs) == [] <==> forall i | 0 <= i < |subs| :: subs[i] == WILDCARD
  {
    if subs != [] {
      WantedEmpty(subs[1..]);
      assert forall i | 1 <= i < |subs| :: subs[i] == subs[1..][i - 1];
    }
  }

  lemma {:induction false} WantedMembers(subs: seq<string>)
    ensures WILDCARD !in Wanted(subs)
  {
    if subs != [] { WantedMembers(subs[1..]); }
  }

  lemma {:induction false} PlaceSelf(subs: seq<string>)
    ensures Placeable(subs, Wanted(subs)) <==> !WildcardBeforeSubTag(subs)
  {
    hide Placeable;
    if subs == [] {
      PlaceNothing(subs);
    } else {
      var rest := subs[1..];
      PlaceSelf(rest);
      WantedEmpty(rest);
      assert forall i | 1 <= i < |subs| :: subs[i] == rest[i - 1];
      assert WildcardBeforeSubTag(rest) ==> WildcardBeforeSubTag(subs) by {
        if WildcardBeforeSubTag(rest) {
          var i, j :| 0 <= i < j < |rest| && rest[i] == WILDCARD && rest[j] != WILDCARD;
          assert subs[i + 1] == WILDCARD && subs[j + 1] != WILDCARD;
        }
      }
      if subs[0] != WILDCARD {
        assert Wanted(subs)[1..] == Wanted(rest);
        TakeFirst(subs, Wanted(subs));
      } else if Wanted(rest) == [] {
        PlaceNothing(subs);
      } else {
        WantedMembers(rest);
        SkipFirst(subs, Wanted(rest));
        var j :| 0 <= j < |rest| && rest[j] != WILDCARD;
        assert subs[0] == WILDCARD && subs[j + 1] != WILDCARD;
      }
    }
  }

  /**
   The equal-strings shortcut of extended matching: without it, a tag matches itself exactly when no
   wildcard stands before another subtag (the first subtag aside).  So it is redundant for tags without "*".
   */
  lemma SelfMatch(tag: string)
    ensures IsExtendedMatch(SubTags(tag), SubTags(tag)) <==> !WildcardBeforeSubTag(SubTags(tag)[1..])
    ensures '*' !in tag ==> IsExtendedMatch(SubTags(tag), SubTags(tag))
  {
    var subs := SubTags(tag);
    PlaceSelf(subs[1..]);
    if '*' !in tag {
      NoWildcard(tag);
      assert forall sub <- subs[1..] :: sub in subs && sub != WILDCARD by {
        assert '*' in WILDCARD;
      }
    }
  }

  lemma {:induction false} NoWildcard(tag: string)
    requires '*' !in tag
    ensures forall sub <- SubTags(tag) :: '*' !in sub
  {
    if tag != "" { NoWildcard(tag[1..]); }
  }

  /** LanguageTag::matches. */
  method Matches(tag: string, range: string, scheme: MatchFilter) returns (matched: bool)
    ensures scheme.Basic? ==> matched == IsBasicMatch(SubTags(tag), SubTags(range))
    ensures scheme.Extended? ==> matched == (tag == range || IsExtendedMatch(SubTags(tag), SubTags(range)))
    ensures scheme.Unrecognised? ==> !matched
  {
    match scheme {
      case Basic =>
        BasicFormsAgree(tag, range);
        matched := MatchBasicString(tag, range);
      case Extended =>
        if tag == range { return true; }
        matched := MatchExtended(SubTags(tag), SubTags(range));
      case Unrecognised =>
        matched := false;
    }
  }

  // ----- Lookup -----

  ghost predicate IsMatch(tag: SubTagList, range: SubTagList, scheme: MatchFilter) {
    match scheme
    case Basic => IsBasicMatch(tag, range)
    case Extended => IsExtendedMatch(tag, range)
    case Unrecognised => false
  }

  /** A choice that can be returned: neither empty nor the wildcard. */
  predicate Eligible(choice: string) {
    choice != "" && choice != WILDCARD
  }

  ghost predicate Answers(choice: string, range: SubTagList, scheme: MatchFilter) {
    Eligible(choice) && IsMatch(SubTags(choice), range, scheme)
  }

  /** The number of subtags left after one truncation: at least one goes, then those of one character at the end. */
  function Truncated(range: SubTagList): (k: nat)
    ensures k < |range|
  {
    if |range| == 1 then 0
    else if |range[|range| - 2]| == 1 then Truncated(range[..|range| - 1])
    else |range| - 1
  }

  /** The ranges tried for one priority, in order. */
  function Tried(range: SubTagList, noFallback: bool): seq<SubTagList> {
    var k := Truncated(range);
    if !noFallback && k > 0 then [range] + Tried(range[..k], noFallback) else [range]
  }

  ghost predicate NoAnswer(choices: seq<string>, ranges: seq<SubTagList>, scheme: MatchFilter)
  {
    forall i, j | 0 <= i < |choices| && 0 <= j < |ranges| :: !Answers(choices[i], ranges[j], scheme)
  }

  // Choice i answers ranges[j], no earlier range has an answer, and no smaller choice answers this one.
  ghost predicate FirstAnswer(choices: seq<string>, ranges: seq<SubTagList>, scheme: MatchFilter, i: nat, j: nat)
  {
    && i < |choices| && j < |ranges| && Answers(choices[i], ranges[j], scheme)
    && NoAnswer(choices, ranges[..j], scheme)
    && forall i' | 0 <= i' < i :: !Answers(choices[i'], ranges[j], scheme)
  }

  /** All ranges that lookup tries, over all priorities, in order. */
  function AllTried(priority: seq<string>, noFallback: bool): seq<SubTagList> {
    if priority == [] then []
    else Tried(SubTags(priority[0]), noFallback) + AllTried(priority[1..], noFallback)
  }

  lemma {:induction false} AllTriedConcat(all: seq<string>, n: nat, noFallback: bool)
    requires n <= |all|
    ensures AllTried(all, noFallback) == AllTried(all[..n], noFallback) + AllTried(all[n..], noFallback)
  {
    if n > 0 {
      var rest := all[1..];
      AllTriedConcat(rest, n - 1, noFallback);
      assert all[..n][1..] == rest[..n - 1] && all[n..] == rest[n - 1..];
      ConcatAssoc(Tried(SubTags(all[0]), noFallback), AllTried(rest[..n - 1], noFallback),
                  AllTried(all[n..], noFallback));
    } else {
      assert all[0..] == all;
    }
  }

  lemma ConcatAssoc(a: seq<SubTagList>, b: seq<SubTagList>, c: seq<SubTagList>)
    ensures a + (b + c) == (a + b) + c
  {
  }

  lemma AllTriedAt(priority: seq<string>, p: nat, noFallback: bool)
    requires p < |priority|
    ensures AllTried(priority[..p + 1], noFallback) ==
            AllTried(priority[..p], noFallback) + Tried(SubTags(priority[p]), noFallback)
    ensures AllTried(priority, noFallback) ==
            AllTried(priority[..p + 1], noFallback) + AllTried(priority[p + 1..], noFallback)
  {
    var front := priority[..p + 1];
    AllTriedConcat(front, p, noFallback);
    assert front[..p] == priority[..p] && front[p..] == [priority[p]];
    assert AllTried([priority[p]], noFallback) == Tried(SubTags(priority[p]), noFallback) + [];
    AllTriedConcat(priority, p + 1, noFallback);
  }

  // Ranges without an answer in front, and any ranges behind, do not change which answer is first.
  lemma FirstAnswerWithin(choices: seq<string>, before: seq<SubTagList>, ranges: seq<SubTagList>,
                          later: seq<SubTagList>, scheme: MatchFilter, i: nat, j: nat)
    requires NoAnswer(choices, before, scheme) && FirstAnswer(choices, ranges, scheme, i, j)
    ensures FirstAnswer(choices, before + ranges + later, scheme, i, |before| + j)
  {
    var all := before + ranges + later;
    assert all[..|before| + j] == before + ranges[..j];
    assert all[|before| + j] == ranges[j];
  }

  method MatchChoice(choice: SubTagList, range: SubTagList, scheme: MatchFilter) returns (matched: bool)
    ensures matched == IsMatch(choice, range, scheme)
  {
    match scheme {
      case Basic => matched := MatchBasic(choice, range);
      case Extended => matched := MatchExtended(choice, range);
      case Unrecognised => matched := false;
    }
  }

  method SplitChoices(choices: seq<string>) returns (splitChoices: seq<seq<string>>)
    ensures |splitChoices| == |choices|
    ensures forall i | 0 <= i < |choices| ::
              splitChoices[i] == if Eligible(choices[i]) then SubTags(choices[i]) else []
  {
    splitChoices := [];
    for i := 0 to |choices|
      invariant |splitChoices| == i
      invariant forall k | 0 <= k < i :: splitChoices[k] == if Eligible(choices[k]) then SubTags(choices[k]) else []
    {
      splitChoices := splitChoices + [if Eligible(choices[i]) then SubTags(choices[i]) else []];
    }
  }

  /** The inner loop of lookup: the smallest choice that answers one range, or -1. */
  method FirstChoice(choices: seq<string>, splitChoices: seq<seq<string>>, range: SubTagList, scheme: MatchFilter)
    returns (index: int)
    requires |splitChoices| == |choices|
    requires forall i | 0 <= i < |choices| ::
               splitChoices[i] == if Eligible(choices[i]) then SubTags(choices[i]) else []
    ensures -1 <= index < |choices|
    ensures index == -1 ==> forall i | 0 <= i < |choices| :: !Answers(choices[i], range, scheme)
    ensures index >= 0 ==> Answers(choices[index], range, scheme)
    ensures index >= 0 ==> forall i | 0 <= i < index :: !Answers(choices[i], range, scheme)
  {
    for i := 0 to |choices|
      invariant forall k | 0 <= k < i :: !Answers(choices[k], range, scheme)
    {
      if splitChoices[i] != [] {
        var matched := MatchChoice(splitChoices[i], range, scheme);
        if matched { return i; }
      }
    }
    return -1;
  }

  /** Drop the last subtag, and then those of one character. */
  method Truncate(range: SubTagList) returns (shorter: seq<string>)
    ensures shorter == range[..Truncated(range)]
  {
    shorter := range[..|range| - 1];
    while |shorter| > 0 && |shorter[|shorter| - 1]| == 1
      invariant |shorter| < |range| && shorter == range[..|shorter|]
      invariant Truncated(range[..|shorter| + 1]) == Truncated(range[..|range|])
    {
      assert range[..|shorter| + 1][..|shorter|] == range[..|shorter|];
      shorter := shorter[..|shorter| - 1];
    }
    assert range[..|range|] == range;
  }

  // The ranges tried after the first.
  function TriedNext(range: SubTagList, noFallback: bool): seq<SubTagList> {
    var k := Truncated(range);
    if !noFallback && k > 0 then Tried(range[..k], noFallback) else []
  }

  lemma TriedStep(range: SubTagList, noFallback: bool)
    ensures Tried(range, noFallback) == [range] + TriedNext(range, noFallback)
  {
  }

  /** The loop of lookup over the ranges of one priority. */
  method LookupOne(choices: seq<string>, splitChoices: seq<seq<string>>, tag: SubTagList, noFallback: bool,
                   scheme: MatchFilter) returns (index: int, ghost at: nat)
    requires |splitChoices| == |choices|
    requires forall i | 0 <= i < |choices| ::
               splitChoices[i] == if Eligible(choices[i]) then SubTags(choices[i]) else []
    ensures index == -1 ==> NoAnswer(choices, Tried(tag, noFallback), scheme)
    ensures index != -1 ==> index >= 0 && FirstAnswer(choices, Tried(tag, noFallback), scheme, index, at)
  {
    hide Tried, Truncated, Answers, Eligible, SubTags;
    var tagSub := tag;
    TriedStep(tag, noFallback);
    ghost var all := Tried(tag, noFallback);
    ghost var done: seq<SubTagList> := [];
    while true
      invariant |tagSub| > 0
      invariant Tried(tagSub, noFallback) == [tagSub] + TriedNext(tagSub, noFallback)
      invariant all == done + Tried(tagSub, noFallback)
      invariant NoAnswer(choices, done, scheme)
      decreases |tagSub|
    {
      index := FirstChoice(choices, splitChoices, tagSub, scheme);
      if index != -1 {
        at := |done|;
        assert all[at] == tagSub && all[..at] == done;
        return;
      }
      assert NoAnswer(choices, done + [tagSub], scheme);
      done := done + [tagSub];
      if noFallback { break; }
      tagSub := Truncate(tagSub);
      if tagSub == [] { break; }
      TriedStep(tagSub, noFallback);
    }
    assert all == done;
    at := 0;
  }

  // The first priority that is matched, its longest prefix that is, and the smallest choice that matches it.
  ghost predicate DecidedAt(choices: seq<string>, priority: seq<string>, noFallback: bool, scheme: MatchFilter,
                            index: int, p: int, k: nat)
  {
    && 0 <= p < |priority| && MatchesBest(choices, SubTags(priority[p]), noFallback, scheme, index, k)
    && forall tag <- priority[..p] :: MatchesNone(choices, SubTags(tag), noFallback, scheme)
  }

  lemma BestIsNotNone(choices: seq<string>, tag: SubTagList, noFallback: bool, scheme: MatchFilter, i: int, k: nat)
    requires MatchesBest(choices, tag, noFallback, scheme, i, k)
    ensures !MatchesNone(choices, tag, noFallback, scheme) && 0 <= i < |choices|
  {
    hide MatchesPrefix;
  }

  /**
   The smallest choice that matches the longest tried prefix of the first priority that any choice matches, or -1 if
   none matches any.
   */
  method Lookup(choices: seq<string>, priority: seq<string>, noFallback: bool, scheme: MatchFilter)
    returns (index: int)
    ensures index == -1 <==> forall tag <- priority :: MatchesNone(choices, SubTags(tag), noFallback, scheme)
    ensures index != -1 ==> exists p, k: nat :: DecidedAt(choices, priority, noFallback, scheme, index, p, k)
    ensures index == Found(choices, AllTried(priority, noFallback), scheme, false)
  {
    hide Tried, MatchesNone, MatchesBest, AllTried, Found, FirstAnswer, NoAnswer, SubTags, Answers, Eligible;
    var splitChoices := SplitChoices(choices);
    NoRangesOrChoices(choices, AllTried(priority, noFallback), scheme);
    assert AllTried([], noFallback) == [] by { NothingIsTried(noFallback); }
    assert priority[..0] == [];
    if |splitChoices| == 0 {
      FoundNothing(choices, AllTried(priority, noFallback), scheme);
      forall tag <- priority ensures MatchesNone(choices, SubTags(tag), noFallback, scheme) {
        NoChoices(choices, SubTags(tag), noFallback, scheme);
      }
      return -1;
    }
    for p := 0 to |priority|
      invariant NoAnswer(choices, AllTried(priority[..p], noFallback), scheme)
      invariant forall tag <- priority[..p] :: MatchesNone(choices, SubTags(tag), noFallback, scheme)
    {
      ghost var before, tried := AllTried(priority[..p], noFallback), Tried(SubTags(priority[p]), noFallback);
      ghost var at;
      index, at := LookupOne(choices, splitChoices, SubTags(priority[p]), noFallback, scheme);
      AllTriedAt(priority, p, noFallback);
      if index != -1 {
        FirstAnswerMeans(choices, SubTags(priority[p]), noFallback, scheme, index, at);
        assert DecidedAt(choices, priority, noFallback, scheme, index, p, |tried[at]|);
        BestIsNotNone(choices, SubTags(priority[p]), noFallback, scheme, index, |tried[at]|);
        FirstAnswerWithin(choices, before, tried, AllTried(priority[p + 1..], noFallback), scheme, index, at);
        NotBoth(choices, AllTried(priority, noFallback), scheme, index, |before| + at);
        FoundFirst(choices, AllTried(priority, noFallback), scheme, index, |before| + at);
        return;
      }
      NoAnswerConcat(choices, before, tried, scheme);
      NoAnswerMeans(choices, SubTags(priority[p]), noFallback, scheme);
    }
    assert priority[..|priority|] == priority;
    FoundNothing(choices, AllTried(priority, noFallback), scheme);
    return -1;
  }

  lemma NoRangesOrChoices(choices: seq<string>, ranges: seq<SubTagList>, scheme: MatchFilter)
    ensures NoAnswer(choices, [], scheme)
    ensures choices == [] ==> NoAnswer(choices, ranges, scheme)
  {
  }

  lemma NoChoices(choices: seq<string>, tag: SubTagList, noFallback: bool, scheme: MatchFilter)
    requires choices == []
    ensures MatchesNone(choices, tag, noFallback, scheme)
  {
  }

  lemma NothingIsTried(noFallback: bool)
    ensures AllTried([], noFallback) == []
  {
  }

  lemma NotBoth(choices: seq<string>, ranges: seq<SubTagList>, scheme: MatchFilter, i: nat, j: nat)
    requires FirstAnswer(choices, ranges, scheme, i, j)
    ensures !NoAnswer(choices, ranges, scheme)
  {
    assert Answers(choices[i], ranges[j], scheme);
  }

  // ----- What lookup answers -----

  /**
   A prefix of the tag that lookup tries: the tag itself, and with fallback also a proper one that does not end in a
   one-character subtag.
   */
  predicate IsTriedLength(tag: SubTagList, noFallback: bool, k: nat) {
    k == |tag| || (!noFallback && 0 < k < |tag| && |tag[k - 1]| != 1)
  }

  /** The choice can be returned, and matches the first k subtags of the tag, which are tried. */
  ghost predicate MatchesPrefix(choice: string, tag: SubTagList, noFallback: bool, scheme: MatchFilter, k: nat) {
    && choice != "" && choice != "*" && IsTriedLength(tag, noFallback, k)
    && match scheme
       case Basic => IsBasicMatch(SubTags(choice), tag[..k])
       case Extended => IsExtendedMatch(SubTags(choice), tag[..k])
       case Unrecognised => false
  }

  ghost predicate MatchesNone(choices: seq<string>, tag: SubTagList, noFallback: bool, scheme: MatchFilter) {
    forall i, k: nat | 0 <= i < |choices| :: !MatchesPrefix(choices[i], tag, noFallback, scheme, k)
  }

  // The longest prefix that is matched, and the smallest choice that matches it.
  ghost predicate MatchesBest(choices: seq<string>, tag: SubTagList, noFallback: bool, scheme: MatchFilter, i: int,
                              k: nat)
  {
    && 0 <= i < |choices| && MatchesPrefix(choices[i], tag, noFallback, scheme, k)
    && (forall i', k': nat | 0 <= i' < |choices| && MatchesPrefix(choices[i'], tag, noFallback, scheme, k') ::
          k' < k || (k' == k && i <= i'))
  }

  // The ranges tried are those prefixes, longest first.
  lemma {:induction false} TriedArePrefixes(tag: SubTagList, noFallback: bool)
    ensures var tried := Tried(tag, noFallback);
            && (forall j | 0 <= j < |tried| ::
                  IsTriedLength(tag, noFallback, |tried[j]|) && |tried[j]| <= |tag| && tried[j] == tag[..|tried[j]|])
            && (forall j, j' | 0 <= j < j' < |tried| :: |tried[j]| > |tried[j']|)
            && (forall k: nat | IsTriedLength(tag, noFallback, k) :: tag[..k] in tried)
  {
    assert tag[..|tag|] == tag;
    if noFallback {
      assert Tried(tag, true) == [tag];
    } else {
      TriedLengths(tag, |tag|);
      var tried := Tried(tag, false);
      forall j | 0 <= j < |tried| ensures IsTriedLength(tag, false, |tried[j]|) {
        if |tried[j]| < |tag| { assert tag[..|tried[j]|] in tried; }
      }
    }
  }

  // Over the ranges tried and over the lengths, what matches is the same.
  lemma PrefixAnswers(choice: string, tag: SubTagList, noFallback: bool, scheme: MatchFilter, k: nat)
    requires IsTriedLength(tag, noFallback, k)
    ensures MatchesPrefix(choice, tag, noFallback, scheme, k) <==> Answers(choice, tag[..k], scheme)
  {
    hide SubTags, IsBasicMatch, IsExtendedMatch;
  }

  lemma NoAnswerMeans(choices: seq<string>, tag: SubTagList, noFallback: bool, scheme: MatchFilter)
    requires NoAnswer(choices, Tried(tag, noFallback), scheme)
    ensures MatchesNone(choices, tag, noFallback, scheme)
  {
    hide Tried, Answers, MatchesPrefix, IsTriedLength;
    TriedArePrefixes(tag, noFallback);
    var tried := Tried(tag, noFallback);
    forall i, k: nat | 0 <= i < |choices| ensures !MatchesPrefix(choices[i], tag, noFallback, scheme, k) {
      if MatchesPrefix(choices[i], tag, noFallback, scheme, k) {
        MatchedIsTried(choices[i], tag, noFallback, scheme, k);
        PrefixAnswers(choices[i], tag, noFallback, scheme, k);
      }
    }
  }

  lemma MatchedIsTried(choice: string, tag: SubTagList, noFallback: bool, scheme: MatchFilter, k: nat)
    requires MatchesPrefix(choice, tag, noFallback, scheme, k)
    ensures IsTriedLength(tag, noFallback, k) && 0 < k <= |tag|
  {
  }

  lemma FirstAnswerMeans(choices: seq<string>, tag: SubTagList, noFallback: bool, scheme: MatchFilter, i: nat, j: nat)
    requires FirstAnswer(choices, Tried(tag, noFallback), scheme, i, j)
    ensures j < |Tried(tag, noFallback)|
    ensures MatchesBest(choices, tag, noFallback, scheme, i, |Tried(tag, noFallback)[j]|)
  {
    hide Tried, Answers, MatchesPrefix, IsTriedLength;
    TriedArePrefixes(tag, noFallback);
    var tried := Tried(tag, noFallback);
    var k := |tried[j]|;
    PrefixAnswers(choices[i], tag, noFallback, scheme, k);
    assert forall j' | 0 <= j' < j :: tried[..j][j'] == tried[j'];
    forall i', k': nat | 0 <= i' < |choices| && MatchesPrefix(choices[i'], tag, noFallback, scheme, k')
      ensures k' < k || (k' == k && i <= i')
    {
      MatchedIsTried(choices[i'], tag, noFallback, scheme, k');
      PrefixAnswers(choices[i'], tag, noFallback, scheme, k');
      var j' :| 0 <= j' < |tried| && tried[j'] == tag[..k'];
    }
  }

  ghost predicate MatchesWhole(choice: string, tag: SubTagList, scheme: MatchFilter) {
    && choice != "" && choice != "*"
    && ((scheme.Basic? && IsBasicMatch(SubTags(choice), tag)) ||
        (scheme.Extended? && IsExtendedMatch(SubTags(choice), tag)))
  }

  /** Without fallback a choice must match the whole range, and the smallest that does is the answer. */
  lemma WholeRangesAlone(choices: seq<string>, tag: SubTagList, scheme: MatchFilter, i: int, k: nat)
    ensures MatchesNone(choices, tag, true, scheme) <==>
              forall n | 0 <= n < |choices| :: !MatchesWhole(choices[n], tag, scheme)
    ensures MatchesBest(choices, tag, true, scheme, i, k) <==>
              k == |tag| && 0 <= i < |choices| && MatchesWhole(choices[i], tag, scheme) &&
              forall n | 0 <= n < i :: !MatchesWhole(choices[n], tag, scheme)
  {
    hide SubTags, IsBasicMatch, IsExtendedMatch, MatchesWhole, MatchesPrefix;
    forall n, m: nat | 0 <= n < |choices|
      ensures MatchesPrefix(choices[n], tag, true, scheme, m) <==> m == |tag| && MatchesWhole(choices[n], tag, scheme)
    {
      WholePrefix(choices[n], tag, scheme, m);
    }
    assert forall n | 0 <= n < |choices| ::
        MatchesWhole(choices[n], tag, scheme) <==> MatchesPrefix(choices[n], tag, true, scheme, |tag|);
  }

  lemma WholePrefix(choice: string, tag: SubTagList, scheme: MatchFilter, k: nat)
    ensures MatchesPrefix(choice, tag, true, scheme, k) <==> k == |tag| && MatchesWhole(choice, tag, scheme)
  {
    hide SubTags, IsBasicMatch, IsExtendedMatch;
    assert tag[..|tag|] == tag;
  }

  // ----- Which ranges are tried, and which of them decide -----

  lemma {:induction false} TruncatedIsNext(tag: SubTagList, k: nat)
    requires 0 < k <= |tag|
    ensures var n := Truncated(tag[..k]);
            && (n > 0 ==> IsTriedLength(tag, false, n))
            && (forall m | n < m < k :: !IsTriedLength(tag, false, m))
  {
    var range := tag[..k];
    if k > 1 && |range[k - 2]| == 1 {
      assert range[..k - 1] == tag[..k - 1];
      TruncatedIsNext(tag, k - 1);
    }
  }

  /** The ranges tried are exactly those prefixes, longest first. */
  lemma {:induction false} TriedLengths(tag: SubTagList, k: nat)
    requires 0 < k <= |tag|
    ensures var tried := Tried(tag[..k], false);
            && (forall i | 0 <= i < |tried| :: 0 < |tried[i]| <= k && tried[i] == tag[..|tried[i]|])
            && (forall i, j | 0 <= i < j < |tried| :: |tried[i]| > |tried[j]|)
            && (forall m | 0 < m < k :: tag[..m] in tried <==> IsTriedLength(tag, false, m))
            && tried[0] == tag[..k]
    decreases k
  {
    var n, tried := Truncated(tag[..k]), Tried(tag[..k], false);
    TruncatedIsNext(tag, k);
    if n > 0 {
      TriedLengths(tag, n);
      assert tag[..k][..n] == tag[..n];
      var rest := Tried(tag[..n], false);
      assert tried == [tag[..k]] + rest;
      forall m | 0 < m < k ensures tag[..m] in tried <==> IsTriedLength(tag, false, m) {
        if tag[..m] in rest {
          var i :| 0 <= i < |rest| && rest[i] == tag[..m];
          assert |rest[i]| <= n && |tag[..m]| == m;
        }
        assert |tag[..m]| != |tag[..k]|;
      }
    } else {
      assert tried == [tag[..k]];
      forall m | 0 < m < k ensures tag[..m] in tried <==> IsTriedLength(tag, false, m) {
        assert |tag[..m]| != |tag[..k]|;
      }
    }
  }

  lemma {:induction false} WantedPrefix(range: seq<string>, k: nat)
    requires k <= |range|
    ensures Wanted(range[..k]) <= Wanted(range)
  {
    if k > 0 {
      WantedPrefix(range[1..], k - 1);
      assert range[..k][1..] == range[1..][..k - 1];
    }
  }

  lemma PlaceFewer(tag: seq<string>, wanted: seq<string>, fewer: seq<string>)
    requires fewer <= wanted && Placeable(tag, wanted)
    ensures Placeable(tag, fewer)
  {
    var p :| Placement(tag, wanted, p);
    var q := p[..|fewer|];
    forall k, i | 0 <= i < |q| && 0 <= k < q[i] ensures |tag[k]| != 1 || k in q {
      if k in p {
        var m :| 0 <= m < |p| && p[m] == k;
        assert m < i;
        assert q[m] == k;
      }
    }
    assert Placement(tag, fewer, q);
  }

  /** A match survives truncation of the range. */
  lemma MatchSurvivesTruncation(tag: SubTagList, range: SubTagList, k: nat, scheme: MatchFilter)
    requires 0 < k <= |range| && IsMatch(tag, range, scheme)
    ensures IsMatch(tag, range[..k], scheme)
  {
    if scheme.Extended? {
      WantedPrefix(range[1..], k - 1);
      assert range[..k][1..] == range[1..][..k - 1];
      PlaceFewer(tag[1..], Wanted(range[1..]), Wanted(range[1..][..k - 1]));
    } else if |range| == 1 {
      assert range[..k] == range;
    }
  }

  /** The last range tried for a tag. */
  function Shortest(tag: SubTagList): SubTagList {
    var tried := Tried(tag, false);
    tried[|tried| - 1]
  }

  // The last range tried for one tag has an answer whenever any of them has.
  lemma ShortestDecides(choices: seq<string>, tag: SubTagList, scheme: MatchFilter)
    ensures NoAnswer(choices, Tried(tag, false), scheme) <==>
            forall i | 0 <= i < |choices| :: !Answers(choices[i], Shortest(tag), scheme)
  {
    var tried := Tried(tag, false);
    var last := |tried| - 1;
    assert tag[..|tag|] == tag;
    TriedLengths(tag, |tag|);
    forall i, j | 0 <= i < |choices| && 0 <= j < |tried| && Answers(choices[i], tried[j], scheme)
      ensures Answers(choices[i], tried[last], scheme)
    {
      assert |tried[last]| <= |tried[j]|;
      assert tried[last] == tried[j][..|tried[last]|];
      MatchSurvivesTruncation(SubTags(choices[i]), tried[j], |tried[last]|, scheme);
    }
    assert tried[last] == Shortest(tag);
  }

  /** With fallback, lookup answers -1 exactly when no priority's shortest range is answered by an eligible choice. */
  lemma {:induction false} FailsOnShortest(choices: seq<string>, priority: seq<string>, scheme: MatchFilter)
    ensures NoAnswer(choices, AllTried(priority, false), scheme) <==>
            forall i, p | 0 <= i < |choices| && 0 <= p < |priority| ::
              !Answers(choices[i], Shortest(SubTags(priority[p])), scheme)
  {
    if priority != [] {
      var first, rest := Tried(SubTags(priority[0]), false), AllTried(priority[1..], false);
      FailsOnShortest(choices, priority[1..], scheme);
      ShortestDecides(choices, SubTags(priority[0]), scheme);
      NoAnswerConcat(choices, first, rest, scheme);
      assert forall p | 1 <= p < |priority| :: priority[p] == priority[1..][p - 1];
    }
  }

  lemma NoAnswerConcat(choices: seq<string>, a: seq<SubTagList>, b: seq<SubTagList>, scheme: MatchFilter)
    ensures NoAnswer(choices, a + b, scheme) <==> NoAnswer(choices, a, scheme) && NoAnswer(choices, b, scheme)
  {
    assert forall j | 0 <= j < |a| :: (a + b)[j] == a[j];
    assert forall j | 0 <= j < |b| :: (a + b)[|a| + j] == b[j];
  }

  // ----- Lookup by matching and lookup by equality -----

  /** Section 3.4 of RFC 4647 asks for a choice that equals the range; the code asks for one that matches it. */
  ghost predicate Meets(choice: string, range: SubTagList, scheme: MatchFilter, equal: bool) {
    if equal then Eligible(choice) && SubTags(choice) == range else Answers(choice, range, scheme)
  }

  // The smallest choice from i on that meets the range, or -1.
  ghost function FirstFrom(choices: seq<string>, range: SubTagList, scheme: MatchFilter, equal: bool, i: nat): (r: int)
    requires i <= |choices|
    ensures r == -1 ==> forall k | i <= k < |choices| :: !Meets(choices[k], range, scheme, equal)
    ensures r != -1 ==> i <= r < |choices| && Meets(choices[r], range, scheme, equal)
    ensures r != -1 ==> forall k | i <= k < r :: !Meets(choices[k], range, scheme, equal)
    decreases |choices| - i
  {
    if i == |choices| then -1
    else if Meets(choices[i], range, scheme, equal) then i
    else FirstFrom(choices, range, scheme, equal, i + 1)
  }

  /** The smallest choice that meets the first range that any choice meets, or -1. */
  ghost function Found(choices: seq<string>, ranges: seq<SubTagList>, scheme: MatchFilter, equal: bool): int {
    if ranges == [] then -1
    else
      var i := FirstFrom(choices, ranges[0], scheme, equal, 0);
      if i != -1 then i else Found(choices, ranges[1..], scheme, equal)
  }

  lemma NothingMeets(choices: seq<string>, range: SubTagList, scheme: MatchFilter)
    requires forall i | 0 <= i < |choices| :: !Answers(choices[i], range, scheme)
    ensures FirstFrom(choices, range, scheme, false, 0) == -1
  {
    hide Answers;
  }

  lemma {:induction false} FoundNothing(choices: seq<string>, ranges: seq<SubTagList>, scheme: MatchFilter)
    requires NoAnswer(choices, ranges, scheme)
    ensures Found(choices, ranges, scheme, false) == -1
    decreases |ranges|
  {
    hide Answers;
    if ranges != [] {
      NothingMeets(choices, ranges[0], scheme);
      FoundNothing(choices, ranges[1..], scheme);
    }
  }

  lemma {:induction false} FoundFirst(choices: seq<string>, ranges: seq<SubTagList>, scheme: MatchFilter, i: nat,
                                      j: nat)
    requires FirstAnswer(choices, ranges, scheme, i, j)
    ensures Found(choices, ranges, scheme, false) == i
    decreases j
  {
    hide Answers;
    if j > 0 {
      assert ranges[..j][0] == ranges[0];
      NothingMeets(choices, ranges[0], scheme);
      assert ranges[1..][..j - 1] == ranges[..j][1..];
      FoundFirst(choices, ranges[1..], scheme, i, j - 1);
    }
  }

  // What is found meets one of the ranges.
  lemma {:induction false} FoundMeets(choices: seq<string>, ranges: seq<SubTagList>, scheme: MatchFilter, equal: bool)
    ensures var r := Found(choices, ranges, scheme, equal);
            r != -1 ==>
              0 <= r < |choices| && exists j :: 0 <= j < |ranges| && Meets(choices[r], ranges[j], scheme, equal)
    decreases |ranges|
  {
    hide Meets;
    if ranges != [] && FirstFrom(choices, ranges[0], scheme, equal, 0) == -1 {
      FoundMeets(choices, ranges[1..], scheme, equal);
      var r := Found(choices, ranges[1..], scheme, equal);
      if r != -1 {
        var j :| 0 <= j < |ranges[1..]| && Meets(choices[r], ranges[1..][j], scheme, equal);
        assert ranges[j + 1] == ranges[1..][j];
      }
    }
  }

  /**
   Every proper prefix of a choice, in whole subtags, stands as a choice of its own at a smaller index.  The lone
   wildcard is no choice and is never tried as a truncation.
   */
  ghost predicate PrefixesFirst(choices: seq<string>) {
    forall i, k | 0 <= i < |choices| && Eligible(choices[i]) && PrefixOf(choices[i], k) :: HasEarlier(choices, i, k)
  }

  predicate PrefixOf(choice: string, k: nat) {
    0 < k < |SubTags(choice)| && SubTags(choice)[..k] != [WILDCARD]
  }

  ghost predicate HasEarlier(choices: seq<string>, i: nat, k: nat)
    requires i < |choices| && PrefixOf(choices[i], k)
  {
    exists j :: 0 <= j < i && Eligible(choices[j]) && SubTags(choices[j]) == SubTags(choices[i])[..k]
  }

  lemma EqualMatches(choice: string, range: SubTagList)
    ensures Meets(choice, range, Basic, true) ==> Meets(choice, range, Basic, false)
  {
  }

  lemma EarlierEqual(choices: seq<string>, range: SubTagList, i: nat) returns (j: nat)
    requires PrefixesFirst(choices) && range != [WILDCARD] && i < |choices|
    requires Meets(choices[i], range, Basic, false) && SubTags(choices[i]) != range
    ensures j < i && Meets(choices[j], range, Basic, true)
  {
    hide SubTags, Eligible;
    var k := |range|;
    assert SubTags(choices[i])[..k] == range;
    assert PrefixOf(choices[i], k);
    assert HasEarlier(choices, i, k);
    j :| 0 <= j < i && Eligible(choices[j]) && SubTags(choices[j]) == range;
  }

  // The first choice that matches equals the range.
  lemma FirstIsEqual(choices: seq<string>, range: SubTagList, i: nat)
    requires PrefixesFirst(choices) && range != [WILDCARD] && i < |choices|
    requires Meets(choices[i], range, Basic, false) && forall k | 0 <= k < i :: !Meets(choices[k], range, Basic, false)
    ensures Meets(choices[i], range, Basic, true)
  {
    hide SubTags, Eligible, Meets, PrefixesFirst;
    if SubTags(choices[i]) != range {
      var j := EarlierEqual(choices, range, i);
      EqualMatches(choices[j], range);
    } else {
      MatchIsEligible(choices[i], range);
    }
  }

  lemma MatchIsEligible(choice: string, range: SubTagList)
    requires Meets(choice, range, Basic, false) && SubTags(choice) == range
    ensures Meets(choice, range, Basic, true)
  {
  }

  lemma SameOnRange(choices: seq<string>, range: SubTagList)
    requires PrefixesFirst(choices) && range != [WILDCARD]
    ensures FirstFrom(choices, range, Basic, false, 0) == FirstFrom(choices, range, Basic, true, 0)
  {
    hide FirstFrom, Meets, PrefixesFirst;
    var i, e := FirstFrom(choices, range, Basic, false, 0), FirstFrom(choices, range, Basic, true, 0);
    if i != -1 { FirstIsEqual(choices, range, i); }
    if e != -1 { EqualMatches(choices[e], range); }
  }

  lemma {:induction false} SameFound(choices: seq<string>, ranges: seq<SubTagList>)
    requires PrefixesFirst(choices) && forall j | 0 <= j < |ranges| :: ranges[j] != [WILDCARD]
    ensures Found(choices, ranges, Basic, false) == Found(choices, ranges, Basic, true)
    decreases |ranges|
  {
    hide PrefixesFirst, Meets;
    if ranges != [] {
      SameOnRange(choices, ranges[0]);
      SameFound(choices, ranges[1..]);
    }
  }

  lemma {:induction false} TruncatedEnds(range: SubTagList)
    ensures var k := Truncated(range); k > 0 ==> |range[k - 1]| != 1
    decreases |range|
  {
    if |range| > 1 && |range[|range| - 2]| == 1 {
      TruncatedEnds(range[..|range| - 1]);
    }
  }

  lemma {:induction false} TriedIsNoWildcard(range: SubTagList, noFallback: bool)
    requires range != [WILDCARD]
    ensures forall j | 0 <= j < |Tried(range, noFallback)| :: Tried(range, noFallback)[j] != [WILDCARD]
    decreases |range|
  {
    var k := Truncated(range);
    if !noFallback && k > 0 {
      TruncatedEnds(range);
      assert range[..k][k - 1] == range[k - 1];
      TriedIsNoWildcard(range[..k], noFallback);
    }
  }

  lemma {:induction false} AllTriedAreNoWildcard(priority: seq<string>, noFallback: bool)
    requires WILDCARD !in priority
    ensures forall j | 0 <= j < |AllTried(priority, noFallback)| :: AllTried(priority, noFallback)[j] != [WILDCARD]
    decreases |priority|
  {
    hide Tried;
    if priority != [] {
      SubTagsRoundTrip(priority[0]);
      TriedIsNoWildcard(SubTags(priority[0]), noFallback);
      AllTriedAreNoWildcard(priority[1..], noFallback);
    }
  }

  lemma {:induction false} TriedAreShorter(range: SubTagList, noFallback: bool)
    ensures var tried := Tried(range, noFallback);
            |tried| >= 1 && tried[0] == range && forall j | 0 < j < |tried| :: |tried[j]| < |range|
    decreases |range|
  {
    var k := Truncated(range);
    if !noFallback && k > 0 { TriedAreShorter(range[..k], noFallback); }
  }

  // Splitting what was joined.
  lemma {:induction false} SplitFirst(sub: string, rest: string)
    requires DELIMITER !in sub
    ensures SubTags(sub) == [sub] && SubTags(sub + [DELIMITER] + rest) == [sub] + SubTags(rest)
    decreases |sub|
  {
    var all := sub + [DELIMITER] + rest;
    if sub == "" {
      assert all[1..] == rest;
    } else {
      SplitFirst(sub[1..], rest);
      assert all[1..] == sub[1..] + [DELIMITER] + rest;
      assert sub == [sub[0]] + sub[1..];
    }
  }

  lemma {:induction false} JoinedRoundTrip(subs: SubTagList)
    requires forall i | 0 <= i < |subs| :: DELIMITER !in subs[i]
    ensures SubTags(Joined(subs)) == subs
    decreases |subs|
  {
    hide SubTags;
    if |subs| == 1 {
      SplitFirst(subs[0], "");
    } else {
      SplitFirst(subs[0], Joined(subs[1..]));
      JoinedRoundTrip(subs[1..]);
    }
  }

  // Equality finds no choice longer than the ranges.
  lemma FoundIsShort(choices: seq<string>, ranges: seq<SubTagList>, n: nat)
    requires forall j | 0 <= j < |ranges| :: |ranges[j]| < n
    requires Found(choices, ranges, Basic, true) != -1
    ensures var r := Found(choices, ranges, Basic, true); 0 <= r < |choices| && |SubTags(choices[r])| < n
  {
    hide SubTags, Found;
    FoundMeets(choices, ranges, Basic, true);
  }

  // If matching and equality find the same for a prefix of a choice, that prefix is an earlier choice.
  lemma PrefixIsEarlier(choices: seq<string>, i: nat, k: nat, noFallback: bool)
    requires i < |choices| && Eligible(choices[i]) && PrefixOf(choices[i], k)
    requires var tried := Tried(SubTags(choices[i])[..k], noFallback);
             Found(choices, tried, Basic, false) == Found(choices, tried, Basic, true)
    ensures HasEarlier(choices, i, k)
  {
    hide SubTags, Tried, FirstFrom;
    var range := SubTags(choices[i])[..k];
    var tried := Tried(range, noFallback);
    TriedAreShorter(range, noFallback);
    var f, e := FirstFrom(choices, range, Basic, false, 0), FirstFrom(choices, range, Basic, true, 0);
    assert Meets(choices[i], range, Basic, false);
    assert 0 <= f <= i;
    if e == -1 {
      FoundIsShort(choices, tried[1..], |range|);
      assert false;
    }
    assert e == f && SubTags(choices[e]) == range && |SubTags(choices[i])| > |range|;
  }

  /**
   For fixed choices, basic lookup answers as lookup by equality for every priority list without the lone wildcard
   if and only if every proper prefix of a choice is itself a choice at a smaller index.
   */
  lemma EqualityAgreesExactly(choices: seq<string>, noFallback: bool)
    ensures (forall priority: seq<string> | WILDCARD !in priority ::
               Found(choices, AllTried(priority, noFallback), Basic, false) ==
               Found(choices, AllTried(priority, noFallback), Basic, true))
            <==> PrefixesFirst(choices)
  {
    hide Found, AllTried, PrefixOf, HasEarlier;
    if PrefixesFirst(choices) {
      forall priority: seq<string> | WILDCARD !in priority
        ensures Found(choices, AllTried(priority, noFallback), Basic, false) ==
                Found(choices, AllTried(priority, noFallback), Basic, true)
      {
        AllTriedAreNoWildcard(priority, noFallback);
        SameFound(choices, AllTried(priority, noFallback));
      }
    } else {
      var i, k :| 0 <= i < |choices| && Eligible(choices[i]) && PrefixOf(choices[i], k) && !HasEarlier(choices, i, k);
      var priority := PriorityOf(choices[i], k, noFallback);
      if Found(choices, AllTried(priority, noFallback), Basic, false) ==
         Found(choices, AllTried(priority, noFallback), Basic, true)
      {
        PrefixIsEarlier(choices, i, k, noFallback);
      }
    }
  }

  // A priority list that asks for a prefix of a choice alone.
  lemma PriorityOf(choice: string, k: nat, noFallback: bool) returns (priority: seq<string>)
    requires PrefixOf(choice, k)
    ensures WILDCARD !in priority && AllTried(priority, noFallback) == Tried(SubTags(choice)[..k], noFallback)
  {
    hide SubTags, Tried;
    var range: SubTagList := SubTags(choice)[..k];
    SubTagsRoundTrip(choice);
    forall i | 0 <= i < |range| ensures DELIMITER !in range[i] { assert range[i] in SubTags(choice); }
    JoinedRoundTrip(range);
    priority := [Joined(range)];
    if Joined(range) == WILDCARD { SplitFirst(WILDCARD, ""); }
    assert AllTried(priority, noFallback) == Tried(range, noFallback) + [];
  }

  /** The lone wildcard finds the smallest choice there is, and equals none of them. */
  lemma LoneWildcard(choices: seq<string>, noFallback: bool)
    ensures var ranges := AllTried([WILDCARD], noFallback);
            && Found(choices, ranges, Basic, true) == -1
            && (Found(choices, ranges, Basic, false) == -1 <==> forall i | 0 <= i < |choices| :: !Eligible(choices[i]))
            && (Found(choices, ranges, Basic, false) != -1 ==>
                  var i := Found(choices, ranges, Basic, false);
                  0 <= i < |choices| && Eligible(choices[i]) && forall k | 0 <= k < i :: !Eligible(choices[k]))
  {
    hide FirstFrom, SubTags;
    SplitFirst(WILDCARD, "");
    assert AllTried([WILDCARD], noFallback) == [[WILDCARD]] + [];
    forall i | 0 <= i < |choices|
      ensures Meets(choices[i], [WILDCARD], Basic, false) == Eligible(choices[i])
      ensures !Meets(choices[i], [WILDCARD], Basic, true)
    {
      SubTagsRoundTrip(choices[i]);
    }
  }

  /** A choice of "en-US" is found for "en", which it does not equal. */
  lemma LookupDeparts(noFallback: bool)
    ensures Found(["en-US"], AllTried(["en"], noFallback), Basic, false) == 0
    ensures Found(["en-US"], AllTried(["en"], noFallback), Basic, true) == -1
  {
    SplitFirst("en", "US");
    SplitFirst("US", "");
    assert "en" + [DELIMITER] + "US" == "en-US";
    assert SubTags("en-US") == ["en", "US"];
    assert AllTried(["en"], noFallback) == [["en"]] + [];
    assert Answers("en-US", ["en"], Basic);
  }

  // ----- Validity -----

  predicate IsAlpha(c: char) {
    'A' <= c <= 'Z' || 'a' <= c <= 'z'
  }

  predicate IsAlphaNum(c: char) {
    IsAlpha(c) || '0' <= c <= '9'
  }

  /**
   Between one and eight letters or digits in each subtag, letters only in the first, and a last subtag of
   one character only after an "x".
   */
  predicate IsValid(subs: SubTagList) {
    && (forall i | 0 <= i < |subs| :: 1 <= |subs[i]| <= 8)
    && (forall c <- subs[0] :: IsAlpha(c))
    && (forall i | 0 <= i < |subs| :: forall c <- subs[i] :: IsAlphaNum(c))
    && (|subs[|subs| - 1]| == 1 ==> PRIVATE_USE in subs[..|subs| - 1])
  }

  method Valid(tag: string) returns (valid: bool)
    ensures valid == IsValid(SubTags(tag))
  {
    hide SubTags;
    var st := SubTags(tag);
    var privateUse := false;
    for s := 0 to |st|
      invariant forall i | 0 <= i < s :: 1 <= |st[i]| <= 8
      invariant s > 0 ==> forall c <- st[0] :: IsAlpha(c)
      invariant forall i | 0 <= i < s :: forall c <- st[i] :: IsAlphaNum(c)
      invariant privateUse <==> PRIVATE_USE in st[..s]
      invariant s == |st| ==> |st[s - 1]| == 1 ==> PRIVATE_USE in st[..s - 1]
    {
      var sub := st[s];
      if |sub| == 0 || |sub| > 8 { return false; }
      for i := 0 to |sub|
        invariant forall k | 0 <= k < i :: if s == 0 then IsAlpha(sub[k]) else IsAlphaNum(sub[k])
      {
        if s == 0 && !IsAlpha(sub[i]) { return false; }
        if s != 0 && !IsAlphaNum(sub[i]) { return false; }
      }
      assert st[..s + 1] == st[..s] + [sub];
      if !privateUse {
        if |sub| == 1 && s == |st| - 1 { return false; }
        if sub == PRIVATE_USE { privateUse := true; }
      }
    }
    return true;
  }
}
