/** What a folded or unfolded list of connection tokens says, and what is heard of it. */
module HttpLists {
  import opened Bytes
  import opened HttpTypes
  import opened HttpTokens

  function CommaIn(v: seq<byte>): (k: nat)
    ensures k <= |v| && (forall i :: 0 <= i < k ==> v[i] != COMMA) && (k < |v| ==> v[k] == COMMA)
  {
    if v == [] || v[0] == COMMA then 0 else 1 + CommaIn(v[1..])
  }

  /** The element is the word in any case, white space around it aside. */
  predicate Element(t: seq<byte>, word: string) {
    exists i :: 0 <= i <= |t| - |word| && ElementAt(t, word, i)
  }

  predicate ElementAt(t: seq<byte>, word: string, i: nat) {
    forall k :: 0 <= k < |t| ==> if i <= k < i + |word| then At(word, k - i, Lower(t[k])) else t[k] == SP || t[k] == HT
  }

  /** The word is an element of the list that the value is by section 7 of RFC 7230. */
  predicate Lists(v: seq<byte>, word: string) {
    var k := CommaIn(v);
    Element(v[..k], word) || (k < |v| && Lists(v[k + 1..], word))
  }

  lemma SaysElement(t: seq<byte>, word: string)
    ensures Says(t, word) ==> Element(t, word)
    ensures word != "" && t != [] && t[0] != SP && HT !in t && Element(t, word) ==> Says(t, word)
  {
    if Says(t, word) {
      assert ElementAt(t, word, 0);
    }
    if word != "" && t != [] && t[0] != SP && HT !in t && Element(t, word) {
      var i :| 0 <= i <= |t| - |word| && ElementAt(t, word, i);
      assert t[0] != HT;
      assert i == 0;
    }
  }

  lemma SpaceElement(t: seq<byte>, word: string)
    requires word != "" && word[0] != ' ' && t != [] && t[0] == SP
    ensures Element(t, word) <==> Element(t[1..], word)
  {
    if Element(t, word) {
      var i :| 0 <= i <= |t| - |word| && ElementAt(t, word, i);
      assert i != 0;
      assert ElementAt(t[1..], word, i - 1);
    }
    if Element(t[1..], word) {
      var i :| 0 <= i <= |t[1..]| - |word| && ElementAt(t[1..], word, i);
      forall k | 0 <= k < |t|
        ensures if i + 1 <= k < i + 1 + |word| then At(word, k - i - 1, Lower(t[k])) else t[k] == SP || t[k] == HT
      {
        if k > 0 {
          assert t[1..][k - 1] == t[k];
        }
      }
      assert ElementAt(t, word, i + 1);
    }
  }

  lemma CommaAtTokenEnd(v: seq<byte>)
    requires v != [] && v[0] != COMMA
    ensures CommaIn(v) == TokenEnd(v)
  {
    if |v| > 1 && v[1] != COMMA {
      CommaAtTokenEnd(v[1..]);
    }
  }

  /** A list behind a comma is part of the whole list. */
  lemma {:induction false} ListsBehind(v: seq<byte>, j: nat, word: string)
    requires j < |v| && v[j] == COMMA && Lists(v[j + 1..], word)
    ensures Lists(v, word)
    decreases |v|
  {
    hide Element;
    var k := CommaIn(v);
    if k < j {
      assert v[k + 1..][j - k - 1] == COMMA && v[k + 1..][j - k..] == v[j + 1..];
      ListsBehind(v[k + 1..], j - k - 1, word);
    }
  }

  lemma ListsSpace(v: seq<byte>, word: string)
    requires word != "" && word[0] != ' ' && v != [] && v[0] == SP
    ensures Lists(v, word) <==> Lists(v[1..], word)
  {
    hide Element;
    var k := CommaIn(v);
    assert v[..k][1..] == v[1..][..k - 1];
    SpaceElement(v[..k], word);
    if k < |v| {
      assert v[1..][k..] == v[k + 1..];
    }
  }

  /** A word in small letters, without commas and spaces. */
  predicate Word(word: string) {
    word != "" && forall i :: 0 <= i < |word| ==> word[i] != ' ' && word[i] != ','
  }

  /** The lines of a folded value as one line: section 3.2.4 of RFC 7230 lets a recipient put a space for each fold. */
  function Joined(v: seq<byte>, more: seq<seq<byte>>): (r: seq<byte>)
    ensures v <= r
    decreases |more|
  {
    if more == [] then v else v + [SP] + Joined(more[0], more[1..])
  }

  lemma JoinedBehind(v: seq<byte>, more: seq<seq<byte>>, k: nat)
    requires k <= |v|
    ensures Joined(v, more)[k..] == Joined(v[k..], more)
  {
    if more != [] {
      assert (v + [SP] + Joined(more[0], more[1..]))[k..] == v[k..] + [SP] + Joined(more[0], more[1..]);
    }
  }

  lemma JoinedNext(more: seq<seq<byte>>)
    requires more != []
    ensures Joined([], more) != [] && Joined([], more)[0] == SP && Joined([], more)[1..] == Joined(more[0], more[1..])
  {
    assert [] + [SP] + Joined(more[0], more[1..]) == [SP] + Joined(more[0], more[1..]);
  }

  /** No byte is zero. */
  predicate Clean(v: seq<byte>, more: seq<seq<byte>>) {
    0 !in v && forall l :: l in more ==> 0 !in l
  }

  /** A list behind a comma of the first line is part of the whole list. */
  lemma ListedBehind(v: seq<byte>, more: seq<seq<byte>>, j: nat, word: string)
    requires j < |v| && v[j] == COMMA && Lists(Joined(v[j + 1..], more), word)
    ensures Lists(Joined(v, more), word)
  {
    hide Lists, Joined;
    JoinedBehind(v, more, j + 1);
    assert Joined(v, more)[j] == v[j];
    ListsBehind(Joined(v, more), j, word);
  }

  /** A token that says the word and is not continued is an element of the list it begins. */
  lemma SaidIsListed(v: seq<byte>, more: seq<seq<byte>>, word: string)
    requires Word(word) && v != [] && Says(v[..TokenEnd(v)], word) && (TokenEnd(v) < |v| || more == [])
    ensures Lists(Joined(v, more), word)
  {
    hide Word;
    var t, l := v[..TokenEnd(v)], Joined(v, more);
    WordBegins(t, word);
    CommaAtTokenEnd(v);
    SaysElement(t, word);
    SameComma(v, l);
    assert l[..TokenEnd(v)] == t;
  }

  lemma WordBegins(t: seq<byte>, word: string)
    requires Word(word) && Says(t, word)
    ensures t != [] && t[0] != COMMA
  {
    assert At(word, 0, Lower(t[0])) && Lower(COMMA) == COMMA;
  }

  lemma SameComma(v: seq<byte>, l: seq<byte>)
    requires v <= l && (CommaIn(v) < |v| || l == v)
    ensures CommaIn(l) == CommaIn(v)
  {
    if v != [] && v[0] != COMMA {
      SameComma(v[1..], l[1..]);
    }
  }

  /** Only what is listed is heard, folded or not. */
  lemma {:induction false} HeardIsListed(v: seq<byte>, more: seq<seq<byte>>, word: string)
    requires Word(word) && v != [] && Hears(v, more, word) && Clean(v[1..], more)
    ensures Lists(Joined(v, more), word)
    decreases |more|, |v|, 0
  {
    hide Says, HearsNext, Lists, Unfinished, Word, Joined;
    var k := TokenEnd(v);
    if k == |v| {
      assert v[..k] == v;
      SaidIsListed(v, more, word);
    } else if Unfinished(v[..k]) {
      var j := k + TokenEnd(v[k..]);
      assert v[k..][j - k] == v[j] && v[j + 1..] == v[1..][j..];
      NextIsListed(v[j + 1..], more, word);
      ListedBehind(v, more, j, word);
    } else if Says(v[..k], word) {
      SaidIsListed(v, more, word);
    } else {
      assert v[k + 1..] == v[1..][k..];
      NextIsListed(v[k + 1..], more, word);
      ListedBehind(v, more, k, word);
    }
  }

  lemma {:induction false} NextIsListed(v: seq<byte>, more: seq<seq<byte>>, word: string)
    requires Word(word) && HearsNext(v, more, word) && Clean(v, more)
    ensures Lists(Joined(v, more), word)
    decreases |more|, |v|, 1
  {
    hide Hears, Lists, Joined;
    if v == [] {
      NextIsListed(more[0], more[1..], word);
      JoinedNext(more);
      ListsSpace(Joined(v, more), word);
    } else if Lower(v[0]) == SP {
      assert v[0] == SP && Joined(v, more)[0] == SP;
      NextIsListed(v[1..], more, word);
      JoinedBehind(v, more, 1);
      ListsSpace(Joined(v, more), word);
    } else {
      HeardIsListed(v, more, word);
    }
  }

  /**
    Every token that is not the last is finished, every one behind a comma begins like a token, and only
    behind one a line is continued.
  */
  predicate Regular(v: seq<byte>, more: seq<seq<byte>>)
    requires v != []
    decreases |more|, |v|, 0
  {
    var k := TokenEnd(v);
    if k == |v| then more == [] else !Unfinished(v[..k]) && RegularNext(v[k + 1..], more)
  }

  predicate RegularNext(v: seq<byte>, more: seq<seq<byte>>)
    decreases |more|, |v|, 1
  {
    if v == [] then more == [] || RegularNext(more[0], more[1..])
    else if v[0] == SP then RegularNext(v[1..], more)
    else TokenOf(Lower(v[0])) != 0 && Regular(v, more)
  }

  /** Without tabs and zeros. */
  predicate Tidy(v: seq<byte>, more: seq<seq<byte>>) {
    HT !in v && 0 !in v && forall l :: l in more ==> HT !in l && 0 !in l
  }

  /**
    In a regular list without tabs exactly the words that it lists are heard. What is heard in any
    list at all is in it (`HeardIsListed`); that not all of it is heard shows `ListMisheard`.
  */
  lemma {:induction false} RegularListHeard(v: seq<byte>, more: seq<seq<byte>>, word: string)
    requires Word(word) && v != [] && v[0] != COMMA && v[0] != SP && Regular(v, more) && Tidy(v, more)
    ensures Hears(v, more, word) <==> Lists(Joined(v, more), word)
    decreases |more|, |v|, 0
  {
    hide Says, Element, HearsNext, Unfinished, RegularNext, Joined, Word;
    var k, l := TokenEnd(v), Joined(v, more);
    CommaAtTokenEnd(v);
    assert v[..k][0] == v[0] && HT !in v[..k];
    WordIsNot(word);
    SaysElement(v[..k], word);
    if k == |v| {
      assert v[..k] == v;
      JoinedAlone(v);
    } else {
      SameComma(v, l);
      assert l[..k] == v[..k];
      JoinedBehind(v, more, k + 1);
      RegularNextHeard(v[k + 1..], more, word);
    }
  }

  lemma WordIsNot(word: string)
    requires Word(word)
    ensures word != "" && word[0] != ' '
  {}

  lemma JoinedAlone(v: seq<byte>)
    ensures Joined(v, []) == v
  {}

  lemma {:induction false} RegularNextHeard(v: seq<byte>, more: seq<seq<byte>>, word: string)
    requires Word(word) && RegularNext(v, more) && Tidy(v, more)
    ensures HearsNext(v, more, word) <==> Lists(Joined(v, more), word)
    decreases |more|, |v|, 1
  {
    hide Hears, Regular, Joined, Lists, Word;
    WordIsNot(word);
    if v == [] {
      if more == [] {
        JoinedAlone([]);
        NothingListed(word);
      } else {
        RegularNextHeard(more[0], more[1..], word);
        JoinedNext(more);
        ListsSpace(Joined(v, more), word);
      }
    } else if v[0] == SP {
      RegularNextHeard(v[1..], more, word);
      JoinedBehind(v, more, 1);
      ListsSpace(Joined(v, more), word);
    } else {
      assert Lower(v[0]) != SP;
      assert TokenOf(Lower(COMMA)) == 0;
      RegularListHeard(v, more, word);
    }
  }

  lemma NothingListed(word: string)
    requires word != ""
    ensures !Lists([], word)
  {}

  lemma TokenEndAt(v: seq<byte>, k: nat)
    requires 1 <= k <= |v| && (forall i :: 1 <= i < k ==> v[i] != COMMA) && (k < |v| ==> v[k] == COMMA)
    ensures TokenEnd(v) == k
  {}

  /** An unfinished word hides the token behind it, and that token only. */
  lemma UnfinishedHides(t: seq<byte>, u: seq<byte>, w: seq<byte>, more: seq<seq<byte>>, word: string)
    requires t != [] && COMMA !in t && COMMA !in u && Unfinished(t)
    ensures Asks(t + [COMMA] + u + [COMMA] + w, more, word) <==> HearsNext(w, more, word)
    ensures !Asks(t + [COMMA] + u, more, word)
  {
    hide Unfinished, HearsNext, TokenEnd;
    var k := |t|;
    var v, v1 := t + [COMMA] + u + [COMMA] + w, t + [COMMA] + u;
    assert v[..k] == t && v1[..k] == t;
    TokenEndAt(v, k);
    TokenEndAt(v1, k);
    assert v[k..] == [COMMA] + u + [COMMA] + w && v1[k..] == [COMMA] + u;
    TokenEndAt(v[k..], 1 + |u|);
    TokenEndAt(v1[k..], 1 + |u|);
    assert v[k + 1 + |u| + 1..] == w;
  }

  /** A list in which every token is finished, the last one too, and begins as it should. */
  predicate Complete(v: seq<byte>)
    requires v != []
    decreases |v|, 0
  {
    var k := TokenEnd(v);
    !Unfinished(v[..k]) && (k < |v| ==> CompleteNext(v[k + 1..]))
  }

  predicate CompleteNext(v: seq<byte>)
    decreases |v|, 1
  {
    v != [] && if Lower(v[0]) == SP then CompleteNext(v[1..]) else TokenOf(Lower(v[0])) != 0 && Complete(v)
  }

  /** Nothing is heard in a list that begins with an empty element or with a tab. */
  lemma {:induction false} NothingHeard(gap: seq<byte>, b: byte, u: seq<byte>, more: seq<seq<byte>>, word: string)
    requires (forall i :: 0 <= i < |gap| ==> gap[i] == SP) && (b == COMMA || b == HT)
    ensures !HearsNext(gap + [b] + u, more, word)
  {
    assert TokenOf(Lower(b)) == 0 && Lower(b) != SP && Lower(SP) == SP;
    var v := gap + [b] + u;
    if gap == [] {
      assert v[0] == b;
    } else {
      assert v[1..] == gap[1..] + [b] + u;
      NothingHeard(gap[1..], b, u, more, word);
    }
  }

  /** Behind complete tokens, however many, and a comma nothing is heard if nothing is heard in the rest. */
  lemma {:induction false} ListEnds(v: seq<byte>, rest: seq<byte>, more: seq<seq<byte>>, word: string)
    requires v != [] && Complete(v) && !HearsNext(rest, more, word)
    ensures Asks(v + ([COMMA] + rest), more, word) <==> Asks(v, [], word)
    decreases |v|, 0
  {
    hide Unfinished, Says, HearsNext, CompleteNext, TokenEnd;
    var x, k := [COMMA] + rest, TokenEnd(v);
    TokenEndAt(v + x, k);
    assert (v + x)[..k] == v[..k];
    if k == |v| {
      assert v[..k] == v && (v + x)[k + 1..] == rest;
    } else {
      assert (v + x)[k + 1..] == v[k + 1..] + x;
      ListEndsNext(v[k + 1..], rest, more, word);
    }
  }

  lemma {:induction false} ListEndsNext(v: seq<byte>, rest: seq<byte>, more: seq<seq<byte>>, word: string)
    requires CompleteNext(v) && !HearsNext(rest, more, word)
    ensures HearsNext(v + ([COMMA] + rest), more, word) <==> HearsNext(v, [], word)
    decreases |v|, 1
  {
    hide Hears, Complete;
    var x := [COMMA] + rest;
    if Lower(v[0]) == SP {
      assert (v + x)[1..] == v[1..] + x;
      ListEndsNext(v[1..], rest, more, word);
    } else {
      ListEnds(v, rest, more, word);
    }
  }

  /** An empty element hides everything behind it. */
  lemma EmptyHides(v: seq<byte>, gap: seq<byte>, u: seq<byte>, more: seq<seq<byte>>, word: string)
    requires v != [] && Complete(v) && forall i :: 0 <= i < |gap| ==> gap[i] == SP
    ensures Asks(v + ([COMMA] + (gap + [COMMA] + u)), more, word) <==> Asks(v, [], word)
  {
    hide Complete, HearsNext;
    NothingHeard(gap, COMMA, u, more, word);
    ListEnds(v, gap + [COMMA] + u, more, word);
  }

  /** So does a tab in front of an element. */
  lemma TabHides(v: seq<byte>, gap: seq<byte>, u: seq<byte>, more: seq<seq<byte>>, word: string)
    requires v != [] && Complete(v) && forall i :: 0 <= i < |gap| ==> gap[i] == SP
    ensures Asks(v + ([COMMA] + (gap + [HT] + u)), more, word) <==> Asks(v, [], word)
  {
    hide Complete, HearsNext;
    NothingHeard(gap, HT, u, more, word);
    ListEnds(v, gap + [HT] + u, more, word);
  }

  /** So not everything that is listed is heard: a word behind an unfinished one, an empty element or a tab. */
  lemma ListMisheard()
    ensures var v := Ascii("clo") + [COMMA] + Ascii(UPGRADE); Lists(v, UPGRADE) && !Asks(v, [], UPGRADE)
    ensures var v := Ascii("te") + [COMMA, COMMA] + Ascii(UPGRADE); Lists(v, UPGRADE) && !Asks(v, [], UPGRADE)
    ensures var v := Ascii("te") + [COMMA, HT] + Ascii(UPGRADE); Lists(v, UPGRADE) && !Asks(v, [], UPGRADE)
  {
    hide Lists, Asks, Says, Unfinished, Ascii, Complete;
    SmallWords();
    UnfinishedMisheard(Ascii("clo"), Ascii(UPGRADE));
    EmptyMisheard(Ascii("te"), Ascii(UPGRADE));
    TabMisheard(Ascii("te"), Ascii(UPGRADE));
  }

  lemma UnfinishedMisheard(t: seq<byte>, u: seq<byte>)
    requires t != [] && COMMA !in t && COMMA !in u && Unfinished(t) && u != [] && Says(u, UPGRADE)
    ensures var v := t + [COMMA] + u; Lists(v, UPGRADE) && !Asks(v, [], UPGRADE)
  {
    hide Lists, Asks, Says, Unfinished;
    UnfinishedHides(t, u, [], [], UPGRADE);
    assert t + [COMMA] + [] + u == t + [COMMA] + u;
    LastIsListed(t, [], u, UPGRADE);
  }

  lemma EmptyMisheard(t: seq<byte>, u: seq<byte>)
    requires t != [] && COMMA !in t && COMMA !in u && !Unfinished(t) && u != [] && Says(u, UPGRADE) && !Says(t, UPGRADE)
    ensures var v := t + [COMMA, COMMA] + u; Lists(v, UPGRADE) && !Asks(v, [], UPGRADE)
  {
    hide Lists, Says, Unfinished;
    TokenEndAt(t, |t|);
    assert t[..|t|] == t;
    EmptyHides(t, [], u, [], UPGRADE);
    hide Asks;
    assert t + ([COMMA] + ([] + [COMMA] + u)) == t + [COMMA, COMMA] + u == t + [COMMA] + [COMMA] + [] + u;
    LastIsListed(t + [COMMA], [], u, UPGRADE);
  }

  lemma TabMisheard(t: seq<byte>, u: seq<byte>)
    requires t != [] && COMMA !in t && COMMA !in u && !Unfinished(t) && u != [] && Says(u, UPGRADE) && !Says(t, UPGRADE)
    ensures var v := t + [COMMA, HT] + u; Lists(v, UPGRADE) && !Asks(v, [], UPGRADE)
  {
    hide Lists, Says, Unfinished;
    TokenEndAt(t, |t|);
    assert t[..|t|] == t;
    TabHides(t, [], u, [], UPGRADE);
    hide Asks;
    assert t + ([COMMA] + ([] + [HT] + u)) == t + [COMMA, HT] + u == t + [COMMA] + [HT] + u;
    LastIsListed(t, [HT], u, UPGRADE);
  }

  lemma SmallWords()
    ensures var u := Ascii(UPGRADE); COMMA !in u && Says(u, UPGRADE) && u != [] && u[0] != COMMA
    ensures var t := Ascii("clo"); COMMA !in t && t != [] && Unfinished(t)
    ensures var t := Ascii("te"); COMMA !in t && t != [] && !Unfinished(t) && !Says(t, UPGRADE)
  {
    hide Begins;
    UpgradeBegins();
    PartOfClose(Ascii("clo"));
    ConnectionWords(Ascii("clo"));
    ConnectionWords(Ascii("te"));
  }

  lemma UpgradeBegins()
    ensures Begins(Ascii(UPGRADE), UPGRADE)
  {}

  lemma PartOfClose(t: seq<byte>)
    requires |t| == 3 && t[0] == 99 && t[1] == 108 && t[2] == 111
    ensures Begins(t, CLOSE)
  {}

  lemma LastIsListed(before: seq<byte>, gap: seq<byte>, u: seq<byte>, word: string)
    requires u != [] && COMMA !in u && Says(u, word) && COMMA !in gap && forall i :: 0 <= i < |gap| ==> gap[i] == HT
    ensures Lists(before + [COMMA] + gap + u, word)
  {
    hide Says, Element, Lists;
    var e, l := gap + u, before + [COMMA] + gap + u;
    PaddedElement(gap, u, word);
    ElementIsListed(e, word);
    BehindComma(before, gap, u);
    ListsBehind(l, |before|, word);
  }

  lemma BehindComma(before: seq<byte>, gap: seq<byte>, u: seq<byte>)
    ensures var l := before + [COMMA] + gap + u; l[|before|] == COMMA && l[|before| + 1..] == gap + u
  {
    var l := before + [COMMA] + gap + u;
    assert forall i :: 0 <= i < |gap + u| ==> l[|before| + 1..][i] == (gap + u)[i];
  }

  lemma ElementIsListed(e: seq<byte>, word: string)
    requires COMMA !in e && Element(e, word)
    ensures Lists(e, word)
  {
    hide Element;
    NoComma(e);
    assert e[..|e|] == e;
  }

  lemma NoComma(e: seq<byte>)
    requires COMMA !in e
    ensures CommaIn(e) == |e|
  {}

  lemma PaddedElement(gap: seq<byte>, u: seq<byte>, word: string)
    requires Says(u, word) && forall i :: 0 <= i < |gap| ==> gap[i] == HT
    ensures Element(gap + u, word)
  {
    var t := gap + u;
    forall k | 0 <= k < |t|
      ensures if |gap| <= k < |gap| + |word| then At(word, k - |gap|, Lower(t[k])) else t[k] == SP || t[k] == HT
    {
      if k >= |gap| {
        assert t[k] == u[k - |gap|];
      }
    }
    assert ElementAt(t, word, |gap|);
  }
}
