/**
 * Hand-written scanners for the three regular expressions of
 * src/components/MessageContentWithMentions.tsx, with `content.matchAll(...)` as a
 * left-to-right scan. For each pattern a predicate says which spans the expression accepts at
 * a position, and the scanner is proved to return the span the JavaScript engine picks there:
 * the only one, or for the role pattern, whose greedy star backtracks until `\b` holds, the
 * longest one.
 */
module MentionScan {
  import opened Wrappers
  import opened Text

  datatype Kind = Everyone | RoleMention | UserMention

  /** A match of one of the three patterns: the span `[start, end)` of the content and its text. */
  datatype Mention = Mention(start: nat, end: nat, kind: Kind, text: string)

  /** `[a-zA-Z_]`, the first character of a role or user name. */
  predicate IsNameStart(c: char) { IsLetter(c) || c == '_' }

  /** `[a-zA-Z0-9_\s]`, the characters after the first one of a role name. */
  predicate IsRoleChar(c: char) { IsWordChar(c) || IsSpace(c) }

  /** `\b` at position `e`: exactly one of the characters on either side is a word character. */
  predicate Boundary(c: string, e: nat)
    requires e <= |c|
  {
    (0 < e && IsWordChar(c[e - 1])) != (e < |c| && IsWordChar(c[e]))
  }

  /** `/@(everyone|here)\b/` accepts `c[i..e]`. */
  predicate EveryoneAccepts(c: string, i: nat, e: nat) {
    i < e <= |c| && (c[i..e] == "@everyone" || c[i..e] == "@here") && Boundary(c, e)
  }

  /** `/@&([a-zA-Z_][a-zA-Z0-9_\s]*)\b/` accepts `c[i..e]`. */
  predicate RoleAccepts(c: string, i: nat, e: nat) {
    && i + 3 <= e <= |c|
    && c[i] == '@' && c[i + 1] == '&' && IsNameStart(c[i + 2])
    && (forall p :: i + 3 <= p < e ==> IsRoleChar(c[p]))
    && Boundary(c, e)
  }

  /** `/@([a-zA-Z_][a-zA-Z0-9_]*)\b/` accepts `c[i..e]`. */
  predicate UserAccepts(c: string, i: nat, e: nat) {
    && i + 2 <= e <= |c|
    && c[i] == '@' && IsNameStart(c[i + 1])
    && (forall p :: i + 2 <= p < e ==> IsWordChar(c[p]))
    && Boundary(c, e)
  }

  predicate Accepts(k: Kind, c: string, i: nat, e: nat) {
    match k
    case Everyone => EveryoneAccepts(c, i, e)
    case RoleMention => RoleAccepts(c, i, e)
    case UserMention => UserAccepts(c, i, e)
  }

  /** The everyone pattern at `i`: `@everyone` is tried before `@here`; at most one can match. */
  function EveryoneAt(c: string, i: nat): (r: Option<nat>)
    requires i <= |c|
    ensures r.Some? ==> EveryoneAccepts(c, i, r.value)
    ensures forall e: nat :: EveryoneAccepts(c, i, e) ==> r == Some(e)
  {
    if i + 9 <= |c| && c[i..i + 9] == "@everyone" && Boundary(c, i + 9) then Some(i + 9)
    else if i + 5 <= |c| && c[i..i + 5] == "@here" && Boundary(c, i + 5) then Some(i + 5)
    else None
  }

  /** The end of the run of role-name characters that starts at `j`. */
  function RoleRunEnd(c: string, j: nat): (k: nat)
    requires j <= |c|
    ensures j <= k <= |c| && (k == |c| || !IsRoleChar(c[k]))
    ensures forall p :: j <= p < k ==> IsRoleChar(c[p])
    decreases |c| - j
  {
    if j < |c| && IsRoleChar(c[j]) then RoleRunEnd(c, j + 1) else j
  }

  /** The end of the run of word characters that starts at `j`. */
  function WordRunEnd(c: string, j: nat): (k: nat)
    requires j <= |c|
    ensures j <= k <= |c| && (k == |c| || !IsWordChar(c[k]))
    ensures forall p :: j <= p < k ==> IsWordChar(c[p])
    decreases |c| - j
  {
    if j < |c| && IsWordChar(c[j]) then WordRunEnd(c, j + 1) else j
  }

  /** Backtracking from `hi` to just after the last word character at or after `lo`. */
  function LastWordEnd(c: string, lo: nat, hi: nat): (e: nat)
    requires lo < hi <= |c| && IsWordChar(c[lo])
    ensures lo < e <= hi && IsWordChar(c[e - 1])
    ensures forall p :: e <= p < hi ==> !IsWordChar(c[p])
    decreases hi
  {
    if IsWordChar(c[hi - 1]) then hi else LastWordEnd(c, lo, hi - 1)
  }

  /**
   * The role pattern at `i`: the greedy run of name characters, given back up to its last
   * word character, which is where `\b` first holds.
   */
  function RoleAt(c: string, i: nat): (r: Option<nat>)
    requires i <= |c|
    ensures r.Some? ==> RoleAccepts(c, i, r.value)
    ensures forall e: nat :: RoleAccepts(c, i, e) ==> r.Some? && e <= r.value
  {
    if i + 3 <= |c| && c[i] == '@' && c[i + 1] == '&' && IsNameStart(c[i + 2]) then
      var hi := RoleRunEnd(c, i + 3);
      assert forall p :: i + 2 <= p < hi ==> IsRoleChar(c[p]);
      var e := LastWordEnd(c, i + 2, hi);
      RoleAtIsLongest(c, i, hi, e);
      Some(e)
    else
      None
  }

  /** The span `RoleAt` picks is accepted, and no longer span is. */
  lemma RoleAtIsLongest(c: string, i: nat, hi: nat, e: nat)
    requires i + 3 <= hi <= |c| && c[i] == '@' && c[i + 1] == '&' && IsNameStart(c[i + 2])
    requires hi == |c| || !IsRoleChar(c[hi])
    requires forall p :: i + 2 <= p < hi ==> IsRoleChar(c[p])
    requires i + 2 < e <= hi && IsWordChar(c[e - 1])
    requires forall p :: e <= p < hi ==> !IsWordChar(c[p])
    ensures RoleAccepts(c, i, e)
    ensures forall e': nat :: RoleAccepts(c, i, e') ==> e' <= e
  {
    forall e': nat | e' > e ensures !RoleAccepts(c, i, e') {
      if e' > hi {
        if e' <= |c| { assert !IsRoleChar(c[hi]); }
      } else {
        assert !IsWordChar(c[e' - 1]);
        if e' < hi { assert !IsWordChar(c[e']); }
      }
    }
  }

  /** The user pattern at `i`: the whole run of word characters after the name start. */
  function UserAt(c: string, i: nat): (r: Option<nat>)
    requires i <= |c|
    ensures r.Some? ==> UserAccepts(c, i, r.value)
    ensures forall e: nat :: UserAccepts(c, i, e) ==> r == Some(e)
  {
    if i + 2 <= |c| && c[i] == '@' && IsNameStart(c[i + 1]) then
      var e := WordRunEnd(c, i + 2);
      assert forall e': nat :: UserAccepts(c, i, e') ==> e' == e by {
        forall e': nat | e' != e ensures !UserAccepts(c, i, e') {
          if e' < e && e' >= i + 2 { assert IsWordChar(c[e' - 1]) && IsWordChar(c[e']); }
          if e' > e && e' <= |c| { assert IsWordChar(c[e - 1]) || e - 1 == i + 1; assert !IsWordChar(c[e]); }
        }
      }
      Some(e)
    else
      None
  }

  /** The pattern of kind `k` at position `i`, as the regular expression engine matches it. */
  function MatchAt(k: Kind, c: string, i: nat): (r: Option<nat>)
    requires i <= |c|
    ensures r.Some? ==> i < r.value <= |c| && Accepts(k, c, i, r.value)
  {
    match k
    case Everyone => EveryoneAt(c, i)
    case RoleMention => RoleAt(c, i)
    case UserMention => UserAt(c, i)
  }

  /** `m` is a match the scanner of its kind finds at its start, and holds the text it spans. */
  predicate IsMatch(c: string, m: Mention) {
    m.start < m.end <= |c| && m.text == c[m.start..m.end] && MatchAt(m.kind, c, m.start) == Some(m.end)
  }

  /** Each span ends no later than any later one starts. */
  predicate Ordered(ms: seq<Mention>) {
    forall a, b :: 0 <= a < b < |ms| ==> ms[a].end <= ms[b].start
  }

  lemma OrderedCons(h: Mention, rest: seq<Mention>)
    requires Ordered(rest) && forall m :: m in rest ==> h.end <= m.start
    ensures Ordered([h] + rest) && forall m :: m in [h] + rest ==> m == h || m in rest
  {
    var ms := [h] + rest;
    forall a, b | 0 <= a < b < |ms| ensures ms[a].end <= ms[b].start {
      assert ms[b] == rest[b - 1];
      if a > 0 { assert ms[a] == rest[a - 1]; }
    }
  }

  /**
   * `content.matchAll(pattern)` from position `i`: the leftmost match, then the scan resumes
   * where it ended.
   */
  function Scan(k: Kind, c: string, i: nat): (ms: seq<Mention>)
    requires i <= |c|
    ensures forall m :: m in ms ==> m.kind == k && i <= m.start && IsMatch(c, m)
    ensures Ordered(ms)
    decreases |c| - i
  {
    if i >= |c| then []
    else match MatchAt(k, c, i)
      case Some(e) =>
        var rest := Scan(k, c, e);
        OrderedCons(Mention(i, e, k, c[i..e]), rest);
        [Mention(i, e, k, c[i..e])] + rest
      case None => Scan(k, c, i + 1)
  }

  /** Position `p` lies inside one of the spans `ms`. */
  predicate Covered(ms: seq<Mention>, p: nat) {
    exists j :: 0 <= j < |ms| && ms[j].start <= p < ms[j].end
  }

  lemma CoveredCons(m: Mention, rest: seq<Mention>, p: nat)
    requires m.start <= p < m.end || Covered(rest, p)
    ensures Covered([m] + rest, p)
  {
    var ms := [m] + rest;
    if m.start <= p < m.end {
      assert ms[0] == m;
    } else {
      var j :| 0 <= j < |rest| && rest[j].start <= p < rest[j].end;
      assert ms[j + 1] == rest[j];
    }
  }

  /** The scan misses no match: every position where the pattern matches lies inside a match found. */
  lemma {:induction false} ScanCovers(k: Kind, c: string, i: nat, p: nat)
    requires i <= p < |c| && MatchAt(k, c, p).Some?
    ensures Covered(Scan(k, c, i), p)
    decreases |c| - i
  {
    ScanStep(k, c, i);
    if i == p {
      var e := MatchAt(k, c, i).value;
      CoveredCons(Mention(i, e, k, c[i..e]), Scan(k, c, e), p);
    } else if MatchAt(k, c, i).None? {
      ScanCovers(k, c, i + 1, p);
    } else {
      var e := MatchAt(k, c, i).value;
      if p >= e {
        ScanCovers(k, c, e, p);
      }
      CoveredCons(Mention(i, e, k, c[i..e]), Scan(k, c, e), p);
    }
  }

  /** One step of the scan: skip a position without a match, or take the match there. */
  lemma ScanStep(k: Kind, c: string, i: nat)
    requires i < |c|
    ensures MatchAt(k, c, i).None? ==> Scan(k, c, i) == Scan(k, c, i + 1)
    ensures MatchAt(k, c, i).Some? ==> var e := MatchAt(k, c, i).value;
      Scan(k, c, i) == [Mention(i, e, k, c[i..e])] + Scan(k, c, e)
  {
  }

}
