/**
 * src/components/MessageBubble.tsx: one chat message. The avatar falls back from the image to
 * the sender's initials; which parts appear, and on which side, depends on whether the
 * message is the viewer's own.
 */
module MessageBubble {
  import opened Wrappers
  import opened Text

  // ---------------------------------------------------------------------------------------
  // Initials
  // ---------------------------------------------------------------------------------------

  /** The end of the run of non-space characters that starts at `j`. */
  function WordEnd(t: string, j: nat): (k: nat)
    requires j <= |t|
    ensures j <= k <= |t| && (k == |t| || IsSpace(t[k]))
    ensures forall p :: j <= p < k ==> !IsSpace(t[p])
    decreases |t| - j
  {
    if j < |t| && !IsSpace(t[j]) then WordEnd(t, j + 1) else j
  }

  predicate NoSpace(w: string) {
    forall i :: 0 <= i < |w| ==> !IsSpace(w[i])
  }

  /** The first non-space position at or after `j`, or `|t|`. */
  function SpaceEnd(t: string, j: nat): (k: nat)
    requires j <= |t|
    ensures j <= k <= |t| && (k == |t| || !IsSpace(t[k]))
    ensures forall p :: j <= p < k ==> IsSpace(t[p])
    decreases |t| - j
  {
    if j < |t| && IsSpace(t[j]) then SpaceEnd(t, j + 1) else j
  }

  /** The words of `s[j..]`: each maximal run of non-space characters, in order. */
  function WordsFrom(s: string, j: nat): (ws: seq<string>)
    requires j <= |s|
    ensures forall i :: 0 <= i < |ws| ==> ws[i] != [] && NoSpace(ws[i])
    ensures ws == [] <==> forall p :: j <= p < |s| ==> IsSpace(s[p])
    decreases |s| - j
  {
    var i := SpaceEnd(s, j);
    if i == |s| then []
    else
      var k := WordEnd(s, i);
      var rest := WordsFrom(s, k);
      assert forall q :: 0 <= q < k - i ==> s[i..k][q] == s[i + q];
      assert forall q :: 0 <= q < |rest| ==> ([s[i..k]] + rest)[q + 1] == rest[q];
      [s[i..k]] + rest
  }

  /** `value.split(/\s+/).filter(Boolean)`: the maximal runs of non-space characters, in order. */
  function Words(s: string): (ws: seq<string>)
    ensures forall i :: 0 <= i < |ws| ==> ws[i] != [] && NoSpace(ws[i])
    ensures ws == [] <==> AllSpace(s)
  {
    WordsFrom(s, 0)
  }

  /** `w` is found at `i` in `t` after nothing but spaces, and is followed by a space or the end. */
  predicate FirstWordAt(t: string, w: string, i: int) {
    0 <= i <= |t| - |w| && AllSpace(t[..i]) && t[i..i + |w|] == w && (i + |w| == |t| || IsSpace(t[i + |w|]))
  }

  /**
   * `ws` splits `t` at white space: `t` is optional spaces, the first word, then either the end
   * or a space, and the rest of `t` splits into the other words; with no words, `t` is all space.
   */
  predicate SplitInto(t: string, ws: seq<string>)
    decreases |ws|
  {
    if ws == [] then AllSpace(t)
    else
      && ws[0] != [] && NoSpace(ws[0])
      && (exists i | 0 <= i <= |t| :: FirstWordAt(t, ws[0], i) && SplitInto(t[i + |ws[0]|..], ws[1..]))
  }

  /** The words are the split of the input at white space. */
  lemma {:induction false} WordsFromSplit(s: string, j: nat)
    requires j <= |s|
    ensures SplitInto(s[j..], WordsFrom(s, j))
    decreases |s| - j
  {
    var t := s[j..];
    var i := SpaceEnd(s, j);
    if i == |s| {
      assert forall p :: 0 <= p < |t| ==> t[p] == s[j + p];
    } else {
      var k := WordEnd(s, i);
      WordsFromSplit(s, k);
      WordAfterSpaces(s, j, i, k);
      SplitCons(t, s[i..k], s[k..], WordsFrom(s, k), i - j);
      assert WordsFrom(s, j) == [s[i..k]] + WordsFrom(s, k);
    }
  }

  /** The word of `s` at `i..k`, after the spaces of `j..i`, is a first word of `s[j..]`. */
  lemma WordAfterSpaces(s: string, j: nat, i: nat, k: nat)
    requires j <= i < k <= |s|
    requires forall p :: j <= p < i ==> IsSpace(s[p])
    requires forall p :: i <= p < k ==> !IsSpace(s[p])
    requires k == |s| || IsSpace(s[k])
    ensures s[i..k] != [] && NoSpace(s[i..k]) && FirstWordAt(s[j..], s[i..k], i - j)
    ensures s[j..][i - j + |s[i..k]|..] == s[k..]
  {
    var t := s[j..];
    var lead := t[..i - j];
    assert forall q :: 0 <= q < |lead| ==> lead[q] == s[j + q];
    assert t[i - j..k - j] == s[i..k];
    assert forall q :: 0 <= q < k - i ==> s[i..k][q] == s[i + q];
  }

  /** A first word followed by a split of what is left is a split. */
  lemma SplitCons(t: string, w: string, u: string, rest: seq<string>, i: int)
    requires w != [] && NoSpace(w) && FirstWordAt(t, w, i) && t[i + |w|..] == u && SplitInto(u, rest)
    ensures SplitInto(t, [w] + rest)
  {
    var ws := [w] + rest;
    assert ws[0] == w && ws[1..] == rest;
  }

  lemma WordsSplit(s: string)
    ensures SplitInto(s, Words(s))
  {
    WordsFromSplit(s, 0);
    assert s[0..] == s;
  }

  /** A string splits into one list of words only: the split is the reference for `Words`. */
  lemma {:induction false} SplitUnique(t: string, a: seq<string>, b: seq<string>)
    requires SplitInto(t, a) && SplitInto(t, b)
    ensures a == b
    decreases |a|
  {
    SplitEmpty(t, a);
    SplitEmpty(t, b);
    if a != [] {
      var ia := SplitHead(t, a);
      var ib := SplitHead(t, b);
      SameStart(t, a[0], ia, b[0], ib);
      SameWord(t, ia, a[0], b[0]);
      SplitUnique(t[ia + |a[0]|..], a[1..], b[1..]);
      SameHeadAndTail(a, b);
    }
  }

  /** Where the first word of a split starts. */
  lemma SplitHead(t: string, ws: seq<string>) returns (i: int)
    requires SplitInto(t, ws) && ws != []
    ensures ws[0] != [] && NoSpace(ws[0]) && FirstWordAt(t, ws[0], i) && SplitInto(t[i + |ws[0]|..], ws[1..])
  {
    i :| 0 <= i <= |t| && FirstWordAt(t, ws[0], i) && SplitInto(t[i + |ws[0]|..], ws[1..]);
  }

  lemma SameHeadAndTail(a: seq<string>, b: seq<string>)
    requires a != [] && b != [] && a[0] == b[0] && a[1..] == b[1..]
    ensures a == b
  {
    assert a == [a[0]] + a[1..] && b == [b[0]] + b[1..];
  }

  /** `Words` is exactly the split of its input at white space. */
  lemma WordsIsTheSplit(s: string, ws: seq<string>)
    ensures SplitInto(s, ws) <==> ws == Words(s)
  {
    WordsSplit(s);
    if SplitInto(s, ws) {
      SplitUnique(s, ws, Words(s));
    }
  }

  /** There are no words exactly when the string is all space. */
  lemma SplitEmpty(t: string, ws: seq<string>)
    requires SplitInto(t, ws)
    ensures ws == [] <==> AllSpace(t)
  {
    if ws != [] {
      var w := ws[0];
      var i :| 0 <= i <= |t| && FirstWordAt(t, w, i) && SplitInto(t[i + |w|..], ws[1..]);
      assert w != [] && i + |w| <= |t|;
      assert t[i] == t[i..i + |w|][0] == w[0];
      assert !IsSpace(t[i]);
    }
  }

  /** A first word starts at the first non-space character. */
  lemma SameStart(t: string, u: string, iu: int, v: string, iv: int)
    requires u != [] && NoSpace(u) && FirstWordAt(t, u, iu)
    requires v != [] && NoSpace(v) && FirstWordAt(t, v, iv)
    ensures iu == iv
  {
    assert forall p :: 0 <= p < iu ==> IsSpace(t[p]) by {
      forall p | 0 <= p < iu ensures IsSpace(t[p]) { assert t[p] == t[..iu][p]; }
    }
    assert forall p :: 0 <= p < iv ==> IsSpace(t[p]) by {
      forall p | 0 <= p < iv ensures IsSpace(t[p]) { assert t[p] == t[..iv][p]; }
    }
    assert t[iu] == u[0] && t[iv] == v[0];
  }

  /** Two words found at the same place, each ending at a space or the end, are the same word. */
  lemma SameWord(t: string, i: int, u: string, v: string)
    requires NoSpace(u) && FirstWordAt(t, u, i)
    requires NoSpace(v) && FirstWordAt(t, v, i)
    ensures u == v
  {
    assert forall p :: i <= p < i + |u| ==> !IsSpace(t[p]) by {
      forall p | i <= p < i + |u| ensures !IsSpace(t[p]) { assert t[p] == u[p - i]; }
    }
    assert forall p :: i <= p < i + |v| ==> !IsSpace(t[p]) by {
      forall p | i <= p < i + |v| ensures !IsSpace(t[p]) { assert t[p] == v[p - i]; }
    }
    assert |u| == |v|;
  }

  /** The characters of `s` that are not white space, in order. */
  function NonSpace(s: string): (r: string)
    decreases |s|
  {
    if s == [] then [] else (if IsSpace(s[0]) then [] else [s[0]]) + NonSpace(s[1..])
  }

  function Concat(ws: seq<string>): string
    decreases |ws|
  {
    if ws == [] then [] else ws[0] + Concat(ws[1..])
  }

  lemma {:induction false} NonSpaceAppend(a: string, b: string)
    ensures NonSpace(a + b) == NonSpace(a) + NonSpace(b)
    decreases |a|
  {
    if a == [] {
      assert a + b == b;
    } else {
      assert (a + b)[1..] == a[1..] + b;
      NonSpaceAppend(a[1..], b);
    }
  }

  lemma {:induction false} NonSpaceOfSpaces(a: string)
    requires AllSpace(a)
    ensures NonSpace(a) == []
    decreases |a|
  {
    if a != [] {
      NonSpaceOfSpaces(a[1..]);
    }
  }

  lemma {:induction false} NonSpaceOfWord(w: string)
    requires NoSpace(w)
    ensures NonSpace(w) == w
    decreases |w|
  {
    if w != [] {
      NonSpaceOfWord(w[1..]);
      assert w == [w[0]] + w[1..];
    }
  }

  /** Splitting loses only white space: the words, put together, are the non-space characters. */
  lemma {:induction false} WordsFromKeepEverythingElse(s: string, j: nat)
    requires j <= |s|
    ensures Concat(WordsFrom(s, j)) == NonSpace(s[j..])
    decreases |s| - j
  {
    var i := SpaceEnd(s, j);
    SkipSpaces(s, j, i);
    if i < |s| {
      var k := WordEnd(s, i);
      TakeWord(s, i, k);
      WordsFromKeepEverythingElse(s, k);
      var ws := WordsFrom(s, j);
      assert ws == [s[i..k]] + WordsFrom(s, k);
      assert ws[1..] == WordsFrom(s, k);
    }
  }

  /** A run of spaces contributes nothing to the non-space characters. */
  lemma SkipSpaces(s: string, j: nat, i: nat)
    requires j <= i <= |s| && forall p :: j <= p < i ==> IsSpace(s[p])
    ensures NonSpace(s[j..]) == NonSpace(s[i..])
  {
    assert s[j..] == s[j..i] + s[i..];
    NonSpaceAppend(s[j..i], s[i..]);
    NonSpaceOfSpaces(s[j..i]);
  }

  /** A word contributes itself. */
  lemma TakeWord(s: string, i: nat, k: nat)
    requires i <= k <= |s| && forall p :: i <= p < k ==> !IsSpace(s[p])
    ensures NonSpace(s[i..]) == s[i..k] + NonSpace(s[k..])
  {
    assert s[i..] == s[i..k] + s[k..];
    NonSpaceAppend(s[i..k], s[k..]);
    NonSpaceOfWord(s[i..k]);
  }

  lemma WordsKeepEverythingElse(s: string)
    ensures Concat(Words(s)) == NonSpace(s)
  {
    WordsFromKeepEverythingElse(s, 0);
    assert s[0..] == s;
  }

  /** The upper-cased first character of each word, in order. */
  function Heads(ws: seq<string>): (r: string)
    requires forall i :: 0 <= i < |ws| ==> ws[i] != []
    ensures |r| == |ws| && forall i :: 0 <= i < |ws| ==> r[i] == UpperChar(ws[i][0])
  {
    seq(|ws|, i requires 0 <= i < |ws| => UpperChar(ws[i][0]))
  }

  /**
   * `getInitials`: the upper-cased first characters of the words, cut to two; "?" when there
   * are no words.
   */
  function GetInitials(value: string): (r: string)
    ensures 1 <= |r| <= 2
    ensures AllSpace(value) ==> r == "?"
    ensures !AllSpace(value) ==> var h := Heads(Words(value)); r == h[..if |h| < 2 then |h| else 2]
  {
    var h := Heads(Words(value));
    var cut := h[..if |h| < 2 then |h| else 2];
    if cut == "" then "?" else cut
  }

  /** The first initial is the upper-cased first non-space character of the name. */
  lemma FirstInitial(value: string)
    requires !AllSpace(value)
    ensures NonSpace(value) != [] && GetInitials(value)[0] == UpperChar(NonSpace(value)[0])
  {
    WordsKeepEverythingElse(value);
    var ws := Words(value);
    assert Concat(ws) == ws[0] + Concat(ws[1..]);
  }

  // ---------------------------------------------------------------------------------------
  // The bubble
  // ---------------------------------------------------------------------------------------

  datatype Props = Props(name: Option<string>, isSender: bool, message: string, avatarUrl: Option<string>,
                         timestamp: string)

  /** What fills the avatar circle. */
  datatype AvatarContent = AvatarImage(src: string, alt: string) | InitialsText(text: string) | EmptyCircle

  datatype Bubble = Bubble(
    rowReversed: bool,          // `flex-row-reverse`: the viewer's own message sits on the right
    senderStyle: bool,          // the gradient bubble and right-aligned column
    avatarSlot: bool,           // the avatar column exists
    avatarVisible: bool,        // the avatar is opaque
    avatar: AvatarContent,
    nameLabel: Option<string>,
    showsMessage: bool,
    showsTimestamp: bool)

  /** `name ? getInitials(name) : ""`. */
  function InitialsOf(name: Option<string>): (r: string)
    ensures !Truthy(name) ==> r == ""
    ensures Truthy(name) ==> 1 <= |r| <= 2
  {
    if Truthy(name) then GetInitials(name.value) else ""
  }

  function Render(p: Props): (b: Bubble)
    ensures b.avatarSlot <==> !p.isSender
    ensures b.avatarVisible <==> !p.isSender && (Truthy(p.avatarUrl) || Truthy(p.name))
    ensures b.nameLabel.Some? <==> Truthy(p.name) && !p.isSender
    ensures b.nameLabel.Some? ==> b.nameLabel == p.name
    ensures b.rowReversed == p.isSender && b.senderStyle == p.isSender
    ensures b.showsMessage <==> p.message != ""
    ensures b.showsTimestamp <==> p.timestamp != ""
    ensures Truthy(p.avatarUrl) ==> b.avatar == AvatarImage(p.avatarUrl.value, OrElse(p.name, "User avatar"))
    ensures !Truthy(p.avatarUrl) && Truthy(p.name) ==> b.avatar == InitialsText(InitialsOf(p.name))
    ensures !Truthy(p.avatarUrl) && !Truthy(p.name) ==> b.avatar == EmptyCircle
  {
    var avatar :=
      if Truthy(p.avatarUrl) then AvatarImage(p.avatarUrl.value, OrElse(p.name, "User avatar"))
      else if Truthy(p.name) then InitialsText(InitialsOf(p.name))
      else EmptyCircle;
    Bubble(
      p.isSender, p.isSender, !p.isSender,
      !p.isSender && (Truthy(p.avatarUrl) || Truthy(p.name)),
      avatar,
      if Truthy(p.name) && !p.isSender then p.name else None,
      p.message != "", p.timestamp != "")
  }

  /**
   * A visible avatar always has something in it, and the viewer's own messages show neither
   * avatar nor name.
   */
  lemma VisibleAvatarHasContent(p: Props)
    ensures Render(p).avatarVisible ==> !Render(p).avatar.EmptyCircle?
    ensures p.isSender ==> !Render(p).avatarSlot && Render(p).nameLabel.None?
  {
  }
}
