/**
 * `renderContent` of src/components/MessageContentWithMentions.tsx: the matches of the three
 * patterns are collected in priority order (everyone/here, then roles, then users), a match
 * that overlaps a position already used is dropped, the survivors are sorted by start, and the
 * content is cut into plain-text parts and mention parts.
 */
module Mentions {
  import opened Wrappers
  import opened Text
  import opened MentionScan

  // ---------------------------------------------------------------------------------------
  // Spans and overlap
  // ---------------------------------------------------------------------------------------

  /** The positions `lo`, ..., `hi - 1`. */
  function Range(lo: nat, hi: nat): (r: set<nat>)
    ensures forall p :: p in r <==> lo <= p < hi
    decreases hi - lo
  {
    if lo >= hi then {} else {lo} + Range(lo + 1, hi)
  }

  /** The positions a mention covers. */
  function Span(m: Mention): set<nat> {
    Range(m.start, m.end)
  }

  /** The positions covered by any of `ms`, as the `usedPositions` set holds them. */
  function Positions(ms: seq<Mention>): set<nat>
    decreases |ms|
  {
    if ms == [] then {} else Positions(ms[..|ms| - 1]) + Span(ms[|ms| - 1])
  }

  /** Two spans share a position. */
  predicate Overlap(a: Mention, b: Mention) {
    a.start < b.end && b.start < a.end
  }

  predicate OverlapsAny(acc: seq<Mention>, m: Mention) {
    exists j :: 0 <= j < |acc| && Overlap(acc[j], m)
  }

  predicate NonEmptySpans(ms: seq<Mention>) {
    forall j :: 0 <= j < |ms| ==> ms[j].start < ms[j].end
  }

  /** No two entries of `ms` share a position. */
  predicate Disjoint(ms: seq<Mention>) {
    forall a, b :: 0 <= a < |ms| && 0 <= b < |ms| && a != b ==> !Overlap(ms[a], ms[b])
  }

  /** The test `some(pos => usedPositions.has(pos))` is the overlap test against what was accepted. */
  lemma {:induction false} UsedMeetsSpan(acc: seq<Mention>, m: Mention)
    requires NonEmptySpans(acc) && m.start < m.end
    ensures Span(m) * Positions(acc) != {} <==> OverlapsAny(acc, m)
    decreases |acc|
  {
    if acc != [] {
      var init, last := acc[..|acc| - 1], acc[|acc| - 1];
      UsedMeetsSpan(init, m);
      assert Positions(acc) == Positions(init) + Span(last);
      if Span(m) * Positions(acc) != {} {
        var p :| p in Span(m) * Positions(acc);
        if p in Span(last) {
          assert Overlap(acc[|acc| - 1], m);
        } else {
          var j :| 0 <= j < |init| && Overlap(init[j], m);
          assert Overlap(acc[j], m);
        }
      }
      if OverlapsAny(acc, m) {
        var j :| 0 <= j < |acc| && Overlap(acc[j], m);
        if j == |acc| - 1 {
          var p := if last.start < m.start then m.start else last.start;
          assert p in Span(m) * Span(last);
        } else {
          assert Overlap(init[j], m);
        }
      }
    }
  }

  // ---------------------------------------------------------------------------------------
  // Collection with priority
  // ---------------------------------------------------------------------------------------

  /** `username === "everyone" || username === "here"` on the captured name. */
  predicate ReservedName(m: Mention) {
    |m.text| >= 1 && (m.text[1..] == "everyone" || m.text[1..] == "here")
  }

  /** The user matches whose name is neither `everyone` nor `here`. */
  function UserCandidates(us: seq<Mention>): (r: seq<Mention>)
    ensures forall m :: m in r ==> m in us && !ReservedName(m)
    ensures forall m :: m in us && !ReservedName(m) ==> m in r
    decreases |us|
  {
    if us == [] then []
    else
      var init := UserCandidates(us[..|us| - 1]);
      var last := us[|us| - 1];
      assert forall m :: m in us ==> m in us[..|us| - 1] || m == last;
      if ReservedName(last) then init else init + [last]
  }

  /**
   * Each candidate in turn is accepted exactly when it shares no position with a mention
   * accepted before it (those in `acc` or earlier candidates).
   */
  function Admit(acc: seq<Mention>, cands: seq<Mention>): (r: seq<Mention>)
    ensures acc <= r
    ensures forall m :: m in r ==> m in acc || m in cands
    ensures Disjoint(acc) ==> Disjoint(r)
    decreases |cands|
  {
    if cands == [] then acc
    else
      var before := Admit(acc, cands[..|cands| - 1]);
      var m := cands[|cands| - 1];
      assert forall x :: x in cands[..|cands| - 1] ==> x in cands;
      if OverlapsAny(before, m) then before
      else
        DisjointSnoc(before, m);
        before + [m]
  }

  /** A mention that overlaps none of a disjoint list can be added to it. */
  lemma DisjointSnoc(ms: seq<Mention>, m: Mention)
    requires !OverlapsAny(ms, m)
    ensures Disjoint(ms) ==> Disjoint(ms + [m])
  {
    var r := ms + [m];
    if Disjoint(ms) {
      forall a, b | 0 <= a < |r| && 0 <= b < |r| && a != b ensures !Overlap(r[a], r[b]) {
        if a < |ms| && b < |ms| {
          assert r[a] == ms[a] && r[b] == ms[b];
        } else if a < |ms| {
          assert r[a] == ms[a] && !Overlap(ms[a], m);
        } else {
          assert r[b] == ms[b] && !Overlap(ms[b], m);
        }
      }
    }
  }

  /** The candidates that share no position with any of `acc`. */
  function Keep(acc: seq<Mention>, cands: seq<Mention>): (r: seq<Mention>)
    ensures forall m :: m in r <==> m in cands && !OverlapsAny(acc, m)
    decreases |cands|
  {
    if cands == [] then []
    else
      var init := Keep(acc, cands[..|cands| - 1]);
      var m := cands[|cands| - 1];
      assert forall x :: x in cands ==> x in cands[..|cands| - 1] || x == m;
      if OverlapsAny(acc, m) then init else init + [m]
  }

  /**
   * The mentions `renderContent` collects, before sorting: matches of the three patterns, no two
   * sharing a position, and no user mention named `everyone` or `here`.
   */
  function Collected(c: string): (r: seq<Mention>)
    ensures forall m :: m in r ==> IsMatch(c, m)
    ensures Disjoint(r) && NonEmptySpans(r)
    ensures forall m :: m in r && m.kind == UserMention ==> !ReservedName(m)
  {
    var everyone := Scan(Everyone, c, 0);
    var roles := Scan(RoleMention, c, 0);
    var users := UserCandidates(Scan(UserMention, c, 0));
    ScanNonEmpty(Everyone, c);
    OrderedDisjoint(everyone);
    var r := Admit(Admit(everyone, roles), users);
    assert forall j :: 0 <= j < |r| ==> r[j] in r;
    r
  }

  lemma OverlapsAnyAppend(a: seq<Mention>, b: seq<Mention>, m: Mention)
    ensures OverlapsAny(a + b, m) <==> OverlapsAny(a, m) || OverlapsAny(b, m)
  {
    var ab := a + b;
    if OverlapsAny(ab, m) {
      var j :| 0 <= j < |ab| && Overlap(ab[j], m);
      if j < |a| { assert a[j] == ab[j]; } else { assert b[j - |a|] == ab[j]; }
    }
    if OverlapsAny(a, m) {
      var j :| 0 <= j < |a| && Overlap(a[j], m);
      assert ab[j] == a[j];
    }
    if OverlapsAny(b, m) {
      var j :| 0 <= j < |b| && Overlap(b[j], m);
      assert ab[|a| + j] == b[j];
    }
  }

  /**
   * When the candidates do not overlap one another, checking each against everything accepted
   * so far is the same as checking it against `acc` alone: a lower-priority match is dropped
   * exactly when it overlaps a mention of higher priority.
   */
  lemma {:induction false} AdmitIsKeep(acc: seq<Mention>, cands: seq<Mention>)
    requires Disjoint(cands)
    ensures Admit(acc, cands) == acc + Keep(acc, cands)
    decreases |cands|
  {
    if cands != [] {
      var init := cands[..|cands| - 1];
      var m := cands[|cands| - 1];
      DisjointInit(cands);
      AdmitIsKeep(acc, init);
      var kept := Keep(acc, init);
      forall j | 0 <= j < |kept| ensures !Overlap(kept[j], m) {
        assert kept[j] in init;
        var a :| 0 <= a < |init| && init[a] == kept[j];
        assert cands[a] == kept[j];
      }
      OverlapsAnyAppend(acc, kept, m);
      assert OverlapsAny(acc + kept, m) <==> OverlapsAny(acc, m);
      assert (acc + kept) + [m] == acc + (kept + [m]);
    }
  }

  lemma DisjointInit(cands: seq<Mention>)
    requires cands != [] && Disjoint(cands)
    ensures Disjoint(cands[..|cands| - 1])
  {
    var init := cands[..|cands| - 1];
    forall a, b | 0 <= a < |init| && 0 <= b < |init| && a != b
      ensures !Overlap(init[a], init[b])
    {
      assert init[a] == cands[a] && init[b] == cands[b];
    }
  }


  /** Spans that are ordered do not overlap. */
  lemma OrderedDisjoint(ms: seq<Mention>)
    requires Ordered(ms) && NonEmptySpans(ms)
    ensures Disjoint(ms)
  {
    forall a, b | 0 <= a < |ms| && 0 <= b < |ms| && a != b ensures !Overlap(ms[a], ms[b]) {
      if a < b { assert ms[a].end <= ms[b].start; } else { assert ms[b].end <= ms[a].start; }
    }
  }

  // ---------------------------------------------------------------------------------------
  // The overlap test never fires
  // ---------------------------------------------------------------------------------------

  /** Every match starts with `@` and has no other `@` in it. */
  lemma AtOnlyAtStart(c: string, m: Mention, p: nat)
    requires IsMatch(c, m) && m.start <= p < m.end
    ensures c[p] == '@' <==> p == m.start
  {
    var i, e := m.start, m.end;
    assert Accepts(m.kind, c, i, e);
    match m.kind
    case Everyone =>
      assert c[p] == c[i..e][p - i];
    case RoleMention =>
      if p >= i + 3 { assert IsRoleChar(c[p]); }
    case UserMention =>
      if p >= i + 2 { assert IsWordChar(c[p]); }
  }

  /** Two overlapping matches start at the same position. */
  lemma OverlapSameStart(c: string, a: Mention, b: Mention)
    requires IsMatch(c, a) && IsMatch(c, b) && Overlap(a, b)
    ensures a.start == b.start
  {
    AtOnlyAtStart(c, a, a.start);
    AtOnlyAtStart(c, b, b.start);
    if a.start < b.start {
      AtOnlyAtStart(c, a, b.start);
    } else if b.start < a.start {
      AtOnlyAtStart(c, b, a.start);
    }
  }

  /** A user match that starts where an everyone/here match starts spans `@everyone` or `@here`. */
  lemma EveryoneShadowsUser(c: string, a: Mention, b: Mention)
    requires IsMatch(c, a) && IsMatch(c, b) && a.kind == Everyone && b.kind == UserMention
    requires a.start == b.start
    ensures ReservedName(b)
  {
    var i, e := a.start, a.end;
    assert EveryoneAccepts(c, i, e);
    var w := c[i..e];
    assert w == "@everyone" || w == "@here";
    forall p | i + 1 <= p < e ensures IsLetter(c[p]) {
      assert c[p] == w[p - i];
    }
    assert UserAccepts(c, i, e);
    assert b.end == e;
  }

  /** An everyone/here match and a role match never overlap. */
  lemma EveryoneRoleApart(c: string, a: Mention, b: Mention)
    requires IsMatch(c, a) && IsMatch(c, b) && a.kind == Everyone && b.kind == RoleMention
    ensures !Overlap(a, b)
  {
    EveryoneSecondChar(c, a);
    assert RoleAccepts(c, b.start, b.end);
    if Overlap(a, b) {
      OverlapSameStart(c, a, b);
    }
  }

  /** The character after the `@` of an everyone/here match is a letter, not `&`. */
  lemma EveryoneSecondChar(c: string, a: Mention)
    requires IsMatch(c, a) && a.kind == Everyone
    ensures a.start + 1 < |c| && c[a.start + 1] != '&'
  {
    var i, e := a.start, a.end;
    assert EveryoneAccepts(c, i, e);
    assert c[i + 1] == c[i..e][1];
  }

  /** A role match and a user match never overlap. */
  lemma RoleUserApart(c: string, a: Mention, b: Mention)
    requires IsMatch(c, a) && IsMatch(c, b) && a.kind == RoleMention && b.kind == UserMention
    ensures !Overlap(a, b)
  {
    if Overlap(a, b) {
      OverlapSameStart(c, a, b);
      assert false;
    }
  }

  lemma ScanNonEmpty(k: Kind, c: string)
    ensures NonEmptySpans(Scan(k, c, 0))
  {
    var ms := Scan(k, c, 0);
    forall j | 0 <= j < |ms| ensures ms[j].start < ms[j].end {
      assert ms[j] in ms;
    }
  }

  /** Keep drops nothing when no candidate overlaps `acc`. */
  lemma {:induction false} KeepAll(acc: seq<Mention>, cands: seq<Mention>)
    requires forall m :: m in cands ==> !OverlapsAny(acc, m)
    ensures Keep(acc, cands) == cands
    decreases |cands|
  {
    if cands != [] {
      var init := cands[..|cands| - 1];
      assert forall m :: m in init ==> m in cands;
      KeepAll(acc, init);
      assert init + [cands[|cands| - 1]] == cands;
    }
  }

  /**
   * The used-positions test never drops a candidate: no role match overlaps an everyone/here
   * match, and no user match with an unreserved name overlaps either of them, so the collected
   * mentions are all everyone/here matches, then all role matches, then all unreserved user
   * matches, each in content order.
   */
  lemma CollectedIsConcatenation(c: string)
    ensures var everyone := Scan(Everyone, c, 0);
            var roles := Scan(RoleMention, c, 0);
            var users := UserCandidates(Scan(UserMention, c, 0));
            Collected(c) == everyone + roles + users
  {
    RolesAllAdmitted(c);
    UsersAllAdmitted(c);
  }

  /** No role match overlaps an everyone/here match, so the role loop admits every role match. */
  lemma RolesAllAdmitted(c: string)
    ensures Admit(Scan(Everyone, c, 0), Scan(RoleMention, c, 0)) == Scan(Everyone, c, 0) + Scan(RoleMention, c, 0)
  {
    var everyone := Scan(Everyone, c, 0);
    var roles := Scan(RoleMention, c, 0);
    ScanNonEmpty(RoleMention, c);
    OrderedDisjoint(roles);
    forall m | m in roles ensures !OverlapsAny(everyone, m) {
      if OverlapsAny(everyone, m) {
        var j :| 0 <= j < |everyone| && Overlap(everyone[j], m);
        EveryoneRoleApart(c, everyone[j], m);
      }
    }
    AdmitIsKeep(everyone, roles);
    KeepAll(everyone, roles);
  }

  /**
   * No unreserved user match overlaps an everyone/here or a role match, so the user loop admits
   * every candidate.
   */
  lemma UsersAllAdmitted(c: string)
    ensures var first := Scan(Everyone, c, 0) + Scan(RoleMention, c, 0);
            var users := UserCandidates(Scan(UserMention, c, 0));
            Admit(first, users) == first + users
  {
    var everyone := Scan(Everyone, c, 0);
    var roles := Scan(RoleMention, c, 0);
    var userMatches := Scan(UserMention, c, 0);
    var users := UserCandidates(userMatches);
    var first := everyone + roles;
    ScanNonEmpty(UserMention, c);
    UserCandidatesOrdered(userMatches);
    forall m | m in users ensures !OverlapsAny(first, m) {
      if OverlapsAny(first, m) {
        var j :| 0 <= j < |first| && Overlap(first[j], m);
        assert first[j] in everyone || first[j] in roles;
        if first[j] in everyone {
          OverlapSameStart(c, first[j], m);
          EveryoneShadowsUser(c, first[j], m);
        } else {
          RoleUserApart(c, first[j], m);
        }
      }
    }
    AdmitIsKeep(first, users);
    KeepAll(first, users);
  }

  /** Filtering keeps the scan's order. */
  lemma {:induction false} UserCandidatesOrdered(us: seq<Mention>)
    requires Ordered(us) && NonEmptySpans(us)
    ensures Ordered(UserCandidates(us)) && NonEmptySpans(UserCandidates(us))
    ensures Disjoint(UserCandidates(us))
    decreases |us|
  {
    if us != [] {
      var init, last := us[..|us| - 1], us[|us| - 1];
      InitFacts(us);
      UserCandidatesOrdered(init);
      var prev := UserCandidates(init);
      if !ReservedName(last) {
        forall x | x in prev ensures x.end <= last.start {
          var k :| 0 <= k < |init| && init[k] == x;
          assert us[k] == x;
        }
        OrderedSnoc(prev, last);
      }
      OrderedDisjoint(UserCandidates(us));
    }
  }

  lemma InitFacts(us: seq<Mention>)
    requires us != [] && Ordered(us) && NonEmptySpans(us)
    ensures Ordered(us[..|us| - 1]) && NonEmptySpans(us[..|us| - 1]) && us[|us| - 1].start < us[|us| - 1].end
  {
  }

  /** An ordered list stays ordered when a mention starting after all of it is appended. */
  lemma OrderedSnoc(prev: seq<Mention>, last: Mention)
    requires Ordered(prev) && NonEmptySpans(prev) && last.start < last.end
    requires forall x :: x in prev ==> x.end <= last.start
    ensures Ordered(prev + [last]) && NonEmptySpans(prev + [last])
  {
    var r := prev + [last];
    forall a, b | 0 <= a < b < |r| ensures r[a].end <= r[b].start {
      assert r[a] == prev[a];
      if b < |prev| { assert r[b] == prev[b]; } else { assert prev[a] in prev; }
    }
    forall j | 0 <= j < |r| ensures r[j].start < r[j].end {
      if j < |prev| { assert r[j] == prev[j]; }
    }
  }

  // ---------------------------------------------------------------------------------------
  // The loops that fill `mentions` and `usedPositions`
  // ---------------------------------------------------------------------------------------

  /** The `for` loop that adds every position of `m` to `usedPositions`. */
  method MarkUsed(used: set<nat>, m: Mention) returns (r: set<nat>)
    ensures r == used + Span(m)
  {
    r := used;
    var i := m.start;
    while i < m.end
      invariant m.start <= i && (i <= m.end || i == m.start)
      invariant r == used + Range(m.start, i)
    {
      r := r + {i};
      i := i + 1;
    }
  }

  /** `Array.from({length}, ...).some(pos => usedPositions.has(pos))`, stopping at the first hit. */
  method AnyUsed(used: set<nat>, m: Mention) returns (b: bool)
    ensures b <==> Span(m) * used != {}
  {
    b := false;
    var i := m.start;
    while i < m.end && !b
      invariant m.start <= i && (i <= m.end || i == m.start)
      invariant !b ==> forall p :: m.start <= p < i ==> p !in used
      invariant b ==> exists p :: p in Span(m) && p in used
    {
      b := i in used;
      i := i + 1;
    }
    if b {
      var p :| p in Span(m) && p in used;
      assert p in Span(m) * used;
    } else {
      forall p | p in Span(m) ensures p !in used { }
    }
  }

  lemma PositionsSnoc(ms: seq<Mention>, m: Mention)
    ensures Positions(ms + [m]) == Positions(ms) + Span(m)
  {
    assert (ms + [m])[..|ms|] == ms;
  }

  /**
   * The body shared by the role and user loops: the overlap test against `usedPositions`, then
   * the push and the marking of the positions.
   */
  method TryAdmit(mentions: seq<Mention>, used: set<nat>, m: Mention)
    returns (mentions': seq<Mention>, used': set<nat>)
    requires used == Positions(mentions) && NonEmptySpans(mentions) && m.start < m.end
    ensures mentions' == if OverlapsAny(mentions, m) then mentions else mentions + [m]
    ensures used' == Positions(mentions') && NonEmptySpans(mentions')
  {
    var overlapping := AnyUsed(used, m);
    UsedMeetsSpan(mentions, m);
    mentions', used' := mentions, used;
    if !overlapping {
      PositionsSnoc(mentions, m);
      used' := MarkUsed(used, m);
      mentions' := mentions + [m];
    }
  }

  /** The everyone/here loop: every match is pushed and its positions are marked. */
  method CollectEveryone(everyone: seq<Mention>) returns (mentions: seq<Mention>, used: set<nat>)
    requires NonEmptySpans(everyone)
    ensures mentions == everyone && used == Positions(mentions)
  {
    used := {};
    mentions := [];
    for j := 0 to |everyone|
      invariant mentions == everyone[..j]
      invariant used == Positions(mentions)
    {
      PositionsSnoc(mentions, everyone[j]);
      assert everyone[..j + 1] == everyone[..j] + [everyone[j]];
      mentions := mentions + [everyone[j]];
      used := MarkUsed(used, everyone[j]);
    }
  }

  /** The role loop: each match is pushed unless it overlaps a used position. */
  method CollectRoles(roles: seq<Mention>, mentions0: seq<Mention>, used0: set<nat>)
    returns (mentions: seq<Mention>, used: set<nat>)
    requires NonEmptySpans(roles) && NonEmptySpans(mentions0) && used0 == Positions(mentions0)
    ensures mentions == Admit(mentions0, roles)
    ensures used == Positions(mentions) && NonEmptySpans(mentions)
  {
    mentions, used := mentions0, used0;
    for j := 0 to |roles|
      invariant mentions == Admit(mentions0, roles[..j])
      invariant used == Positions(mentions) && NonEmptySpans(mentions)
    {
      AdmitStep(mentions0, roles, j);
      mentions, used := TryAdmit(mentions, used, roles[j]);
    }
    assert roles[..|roles|] == roles;
  }

  /** The user loop: `everyone`/`here` are skipped, the others are treated like roles. */
  method CollectUsers(userMatches: seq<Mention>, mentions0: seq<Mention>, used0: set<nat>)
    returns (mentions: seq<Mention>, used: set<nat>)
    requires NonEmptySpans(userMatches) && NonEmptySpans(mentions0) && used0 == Positions(mentions0)
    ensures mentions == Admit(mentions0, UserCandidates(userMatches))
    ensures used == Positions(mentions) && NonEmptySpans(mentions)
  {
    mentions, used := mentions0, used0;
    for j := 0 to |userMatches|
      invariant mentions == Admit(mentions0, UserCandidates(userMatches[..j]))
      invariant used == Positions(mentions) && NonEmptySpans(mentions)
    {
      var m := userMatches[j];
      UserCandidatesStep(userMatches, j);
      if !ReservedName(m) {
        AdmitSnoc(mentions0, UserCandidates(userMatches[..j]), m);
        mentions, used := TryAdmit(mentions, used, m);
      }
    }
    assert userMatches[..|userMatches|] == userMatches;
  }

  /** One more role candidate: `Admit` of a prefix, extended by one step. */
  lemma AdmitStep(acc: seq<Mention>, cands: seq<Mention>, j: nat)
    requires j < |cands|
    ensures var before := Admit(acc, cands[..j]);
      Admit(acc, cands[..j + 1]) == if OverlapsAny(before, cands[j]) then before else before + [cands[j]]
  {
    assert cands[..j + 1][..j] == cands[..j];
  }

  /** `Admit` of a list extended by one candidate. */
  lemma AdmitSnoc(acc: seq<Mention>, cands: seq<Mention>, m: Mention)
    ensures var before := Admit(acc, cands);
      Admit(acc, cands + [m]) == if OverlapsAny(before, m) then before else before + [m]
  {
    assert (cands + [m])[..|cands|] == cands;
  }

  /** One more user match: it becomes a candidate exactly when its name is not reserved. */
  lemma UserCandidatesStep(us: seq<Mention>, j: nat)
    requires j < |us|
    ensures UserCandidates(us[..j + 1])
      == if ReservedName(us[j]) then UserCandidates(us[..j]) else UserCandidates(us[..j]) + [us[j]]
  {
    assert us[..j + 1][..j] == us[..j];
  }

  /** The three `forEach` loops of `renderContent` collect exactly `Collected(content)`. */
  method CollectMentions(content: string) returns (mentions: seq<Mention>)
    ensures mentions == Collected(content)
  {
    ScanNonEmpty(Everyone, content);
    ScanNonEmpty(RoleMention, content);
    ScanNonEmpty(UserMention, content);
    var used;
    mentions, used := CollectEveryone(Scan(Everyone, content, 0));
    mentions, used := CollectRoles(Scan(RoleMention, content, 0), mentions, used);
    mentions, used := CollectUsers(Scan(UserMention, content, 0), mentions, used);
  }

  // ---------------------------------------------------------------------------------------
  // Sorting by start
  // ---------------------------------------------------------------------------------------

  /** Places `m` before the first mention that does not start before it. */
  function InsertByStart(m: Mention, ms: seq<Mention>): (r: seq<Mention>)
    ensures multiset(r) == multiset(ms) + multiset{m}
    decreases |ms|
  {
    if ms == [] || m.start <= ms[0].start then [m] + ms
    else
      assert ms == [ms[0]] + ms[1..];
      [ms[0]] + InsertByStart(m, ms[1..])
  }

  /** Inserting a non-empty mention that overlaps none of an ordered list keeps it ordered. */
  lemma {:induction false} InsertByStartOrdered(m: Mention, ms: seq<Mention>)
    requires Ordered(ms) && NonEmptySpans(ms) && m.start < m.end
    requires forall j :: 0 <= j < |ms| ==> !Overlap(ms[j], m)
    ensures Ordered(InsertByStart(m, ms)) && NonEmptySpans(InsertByStart(m, ms))
    decreases |ms|
  {
    if ms == [] || m.start <= ms[0].start {
      FitsBefore(m, ms);
      OrderedCons(m, ms);
      NonEmptyCons(m, ms);
    } else {
      var tail := ms[1..];
      TailFacts(ms, m);
      InsertByStartOrdered(m, tail);
      var rest := InsertByStart(m, tail);
      AfterHead(ms, m, rest);
      OrderedCons(ms[0], rest);
      NonEmptyCons(ms[0], rest);
    }
  }

  lemma NonEmptyCons(h: Mention, rest: seq<Mention>)
    requires h.start < h.end && NonEmptySpans(rest)
    ensures NonEmptySpans([h] + rest)
  {
    var r := [h] + rest;
    forall j | 0 <= j < |r| ensures r[j].start < r[j].end {
      if j > 0 { assert r[j] == rest[j - 1]; }
    }
  }

  /** A mention starting no later than the first of an ordered list, and overlapping none, ends before all of them. */
  lemma FitsBefore(m: Mention, ms: seq<Mention>)
    requires Ordered(ms) && NonEmptySpans(ms) && m.start < m.end
    requires forall j :: 0 <= j < |ms| ==> !Overlap(ms[j], m)
    requires ms == [] || m.start <= ms[0].start
    ensures forall x :: x in ms ==> m.end <= x.start
  {
    forall x | x in ms ensures m.end <= x.start {
      var k :| 0 <= k < |ms| && ms[k] == x;
      assert !Overlap(ms[0], m);
      if k > 0 { assert ms[0].end <= ms[k].start; }
    }
  }

  lemma TailFacts(ms: seq<Mention>, m: Mention)
    requires ms != [] && Ordered(ms) && NonEmptySpans(ms)
    requires forall j :: 0 <= j < |ms| ==> !Overlap(ms[j], m)
    ensures Ordered(ms[1..]) && NonEmptySpans(ms[1..])
    ensures forall j :: 0 <= j < |ms[1..]| ==> !Overlap(ms[1..][j], m)
  {
    var t := ms[1..];
    assert forall j :: 0 <= j < |t| ==> t[j] == ms[j + 1];
  }

  /** Everything inserted after the head of the list starts after the head ends. */
  lemma AfterHead(ms: seq<Mention>, m: Mention, rest: seq<Mention>)
    requires ms != [] && Ordered(ms) && NonEmptySpans(ms)
    requires ms[0].start < m.start < m.end && !Overlap(ms[0], m)
    requires multiset(rest) == multiset(ms[1..]) + multiset{m}
    ensures forall x :: x in rest ==> ms[0].end <= x.start
  {
    forall x | x in rest ensures ms[0].end <= x.start {
      assert x in multiset(rest);
      if x != m {
        assert x in multiset(ms[1..]);
        var k :| 0 <= k < |ms[1..]| && ms[1..][k] == x;
        assert ms[k + 1] == x;
      }
    }
  }

  /**
   * `mentions.sort((a, b) => a.start - b.start)`. The spans are disjoint, so their starts are
   * distinct and the sorted order is the only one; an insertion sort stands for the library sort.
   */
  function SortByStart(ms: seq<Mention>): (r: seq<Mention>)
    requires Disjoint(ms) && NonEmptySpans(ms)
    ensures multiset(r) == multiset(ms)
    ensures Ordered(r) && NonEmptySpans(r)
    ensures forall a, b :: 0 <= a < b < |r| ==> r[a].start < r[b].start
    decreases |ms|
  {
    if ms == [] then []
    else
      var tail := ms[1..];
      DisjointTail(ms);
      var sorted := SortByStart(tail);
      HeadApart(ms, sorted);
      assert ms == [ms[0]] + tail;
      var r := InsertByStart(ms[0], sorted);
      InsertByStartOrdered(ms[0], sorted);
      StrictStarts(r);
      r
  }

  lemma DisjointTail(ms: seq<Mention>)
    requires ms != [] && Disjoint(ms) && NonEmptySpans(ms)
    ensures Disjoint(ms[1..]) && NonEmptySpans(ms[1..])
  {
    var t := ms[1..];
    assert forall j :: 0 <= j < |t| ==> t[j] == ms[j + 1];
  }

  lemma HeadApart(ms: seq<Mention>, sorted: seq<Mention>)
    requires ms != [] && Disjoint(ms) && multiset(sorted) == multiset(ms[1..])
    ensures forall j :: 0 <= j < |sorted| ==> !Overlap(sorted[j], ms[0])
  {
    forall j | 0 <= j < |sorted| ensures !Overlap(sorted[j], ms[0]) {
      assert sorted[j] in multiset(ms[1..]);
      var k :| 0 <= k < |ms[1..]| && ms[1..][k] == sorted[j];
      assert ms[k + 1] == sorted[j];
    }
  }

  lemma StrictStarts(r: seq<Mention>)
    requires Ordered(r) && NonEmptySpans(r)
    ensures forall a, b :: 0 <= a < b < |r| ==> r[a].start < r[b].start
  {
    forall a, b | 0 <= a < b < |r| ensures r[a].start < r[b].start {
      assert r[a].start < r[a].end <= r[b].start;
    }
  }

  // ---------------------------------------------------------------------------------------
  // Segmentation
  // ---------------------------------------------------------------------------------------

  /**
   * One rendered part: a text run, or a mention with its displayed text, its tooltip and whether it is
   * highlighted as the current user.
   */
  datatype Part =
    | Plain(text: string)
    | Tag(mention: Mention, display: string, title: string, isCurrentUser: bool)

  /** The content a part stands for: a text run's text, a mention's matched text. */
  function PartText(p: Part): string {
    match p
    case Plain(t) => t
    case Tag(m, _, _, _) => m.text
  }

  /** The parts' texts, concatenated. */
  function Flatten(ps: seq<Part>): string
    decreases |ps|
  {
    if ps == [] then [] else Flatten(ps[..|ps| - 1]) + PartText(ps[|ps| - 1])
  }

  /** The mentions of the mention parts, in order. */
  function TagsOf(ps: seq<Part>): seq<Mention>
    decreases |ps|
  {
    if ps == [] then []
    else TagsOf(ps[..|ps| - 1]) + (if ps[|ps| - 1].Tag? then [ps[|ps| - 1].mention] else [])
  }

  /** `mention.match.substring(2)` for a role, "" otherwise. */
  function RoleName(m: Mention): string {
    if m.kind == RoleMention then Substring(m.text, 2) else ""
  }

  /** The part for mention `m`, labelled and titled as the span element is. */
  function TagFor(m: Mention, currentUserId: Option<string>): (p: Part)
    ensures p.Tag? && p.mention == m
    ensures p.isCurrentUser <==> m.kind == UserMention && currentUserId == Some(Substring(m.text, 1))
    ensures m.kind == RoleMention ==> p.display == "@" + Trim(Substring(m.text, 2))
    ensures m.kind != RoleMention ==> p.display == m.text
  {
    var display := if m.kind == RoleMention then "@" + Trim(RoleName(m)) else m.text;
    var title := match m.kind
      case Everyone => "Mentions everyone in the channel"
      case RoleMention => "Mentions role: " + RoleName(m)
      case UserMention => "Mentions user: " + m.text;
    Tag(m, display, title, m.kind == UserMention && currentUserId == Some(Substring(m.text, 1)))
  }

  /** No text part is empty and every mention part is the one `TagFor` builds. */
  predicate WellFormed(ps: seq<Part>, currentUserId: Option<string>) {
    forall j :: 0 <= j < |ps| ==> PartOk(ps[j], currentUserId)
  }

  predicate PartOk(p: Part, currentUserId: Option<string>) {
    match p
    case Plain(t) => t != []
    case Tag(m, _, _, _) => p == TagFor(m, currentUserId)
  }

  lemma SnocParts(ps: seq<Part>, p: Part, currentUserId: Option<string>)
    requires WellFormed(ps, currentUserId) && PartOk(p, currentUserId)
    ensures Flatten(ps + [p]) == Flatten(ps) + PartText(p)
    ensures TagsOf(ps + [p]) == TagsOf(ps) + (if p.Tag? then [p.mention] else [])
    ensures WellFormed(ps + [p], currentUserId)
  {
    assert (ps + [p])[..|ps|] == ps;
    var r := ps + [p];
    forall j | 0 <= j < |r| ensures PartOk(r[j], currentUserId) {
      if j < |ps| { assert r[j] == ps[j]; }
    }
  }

  /** Each mention's span lies in `content` and its text is the text there. */
  predicate Within(content: string, ms: seq<Mention>) {
    forall j :: 0 <= j < |ms| ==>
      ms[j].start <= ms[j].end <= |content| && ms[j].text == content[ms[j].start..ms[j].end]
  }
  /** The next mention starts at or after the end of the previous one, and lies in the content. */
  lemma NextMention(content: string, ms: seq<Mention>, j: nat, lastIndex: nat)
    requires Ordered(ms) && Within(content, ms) && j < |ms|
    requires j == 0 ==> lastIndex == 0
    requires j > 0 ==> lastIndex == ms[j - 1].end
    ensures lastIndex <= ms[j].start <= ms[j].end <= |content|
    ensures ms[j].text == content[ms[j].start..ms[j].end]
    ensures ms[..j + 1] == ms[..j] + [ms[j]]
  {
  }


  lemma PrefixJoin(s: string, a: nat, b: nat)
    requires a <= b <= |s|
    ensures s[..b] == s[..a] + s[a..b]
  {
  }

  /**
   * The `mentions.forEach` loop and the tail: the text before each mention (when there is
   * any), the mention, and the text after the last one (when there is any).
   */
  method Segment(content: string, mentions: seq<Mention>, currentUserId: Option<string>)
    returns (parts: seq<Part>)
    requires Ordered(mentions) && Within(content, mentions)
    ensures Flatten(parts) == content
    ensures TagsOf(parts) == mentions
    ensures WellFormed(parts, currentUserId)
  {
    var lastIndex;
    parts, lastIndex := EmitMentions(content, mentions, currentUserId);
    if lastIndex < |content| {
      SnocParts(parts, Plain(content[lastIndex..]), currentUserId);
      PrefixJoin(content, lastIndex, |content|);
      parts := parts + [Plain(content[lastIndex..])];
    }
  }

  /** The `forEach` over the sorted mentions, which leaves `lastIndex` at the end of the last one. */
  method EmitMentions(content: string, mentions: seq<Mention>, currentUserId: Option<string>)
    returns (parts: seq<Part>, lastIndex: nat)
    requires Ordered(mentions) && Within(content, mentions)
    ensures lastIndex <= |content| && Flatten(parts) == content[..lastIndex]
    ensures TagsOf(parts) == mentions
    ensures WellFormed(parts, currentUserId)
  {
    parts := [];
    lastIndex := 0;
    for j := 0 to |mentions|
      invariant lastIndex <= |content|
      invariant j == 0 ==> lastIndex == 0
      invariant j > 0 ==> lastIndex == mentions[j - 1].end
      invariant Flatten(parts) == content[..lastIndex]
      invariant TagsOf(parts) == mentions[..j]
      invariant WellFormed(parts, currentUserId)
    {
      NextMention(content, mentions, j, lastIndex);
      parts := EmitMention(content, parts, lastIndex, mentions[j], currentUserId);
      lastIndex := mentions[j].end;
    }
    assert mentions[..|mentions|] == mentions;
  }

  /** The body of the `forEach`: the text since `lastIndex`, when there is any, then the mention. */
  method EmitMention(content: string, parts: seq<Part>, lastIndex: nat, m: Mention,
                     currentUserId: Option<string>) returns (parts': seq<Part>)
    requires lastIndex <= m.start <= m.end <= |content| && m.text == content[m.start..m.end]
    requires Flatten(parts) == content[..lastIndex] && WellFormed(parts, currentUserId)
    ensures Flatten(parts') == content[..m.end] && WellFormed(parts', currentUserId)
    ensures TagsOf(parts') == TagsOf(parts) + [m]
  {
    parts' := parts;
    if m.start > lastIndex {
      SnocParts(parts', Plain(content[lastIndex..m.start]), currentUserId);
      PrefixJoin(content, lastIndex, m.start);
      parts' := parts' + [Plain(content[lastIndex..m.start])];
    }
    SnocParts(parts', TagFor(m, currentUserId), currentUserId);
    PrefixJoin(content, m.start, m.end);
    parts' := parts' + [TagFor(m, currentUserId)];
  }

  /**
   * `renderContent`: nothing for empty content; otherwise the collected mentions, sorted by
   * start, with the content around them cut into text parts.
   */
  method RenderContent(content: string, currentUserId: Option<string>) returns (r: Option<seq<Part>>)
    ensures r.None? <==> content == []
    ensures r.Some? ==> Flatten(r.value) == content
    ensures r.Some? ==> TagsOf(r.value) == SortByStart(Collected(content))
    ensures r.Some? ==> WellFormed(r.value, currentUserId)
  {
    if content == [] {
      return None;
    }
    var mentions := CollectMentions(content);
    var sorted := SortByStart(mentions);
    assert Within(content, sorted) by {
      forall j | 0 <= j < |sorted|
        ensures sorted[j].start <= sorted[j].end <= |content|
        ensures sorted[j].text == content[sorted[j].start..sorted[j].end]
      {
        assert sorted[j] in multiset(mentions);
      }
    }
    var parts := Segment(content, sorted, currentUserId);
    return Some(parts);
  }

  /**
   * A role mention's label is `@` and its name unchanged: the name starts with a letter or `_`
   * and the `\b` backtracking ends it on a word character, so the `trim()` removes nothing.
   */
  lemma RoleLabelUntrimmed(c: string, m: Mention, currentUserId: Option<string>)
    requires IsMatch(c, m) && m.kind == RoleMention
    ensures TagFor(m, currentUserId).display == "@" + m.text[2..]
  {
    assert RoleAccepts(c, m.start, m.end);
    var name := m.text[2..];
    assert name[0] == c[m.start + 2] && name[|name| - 1] == c[m.end - 1];
    TrimOfTrimmed(name);
  }
}
