/** Splitting a flashcard deck into cards: `re.split(r'\n(?=### )', text)`
    cuts at every newline that is followed by a `### ` heading and drops
    that newline. */
module Cards {
  import opened Text

  /** The heading every card after the first begins with. */
  const Heading: string := "### "

  /** Position `i` of `s` matches `\n(?=### )`. */
  predicate IsBreak(s: string, i: int) {
    0 <= i && i + 5 <= |s| && s[i] == '\n' && s[i + 1..i + 5] == Heading
  }

  predicate NoBreak(s: string) {
    forall i :: 0 <= i < |s| ==> !IsBreak(s, i)
  }

  /** The first match at or after `from`, or `|s|` when there is none. */
  function NextBreak(s: string, from: nat): (i: nat)
    requires from <= |s|
    ensures from <= i <= |s|
    ensures i < |s| ==> IsBreak(s, i)
    ensures forall j :: from <= j < i ==> !IsBreak(s, j)
    decreases |s| - from
  {
    if from == |s| then |s|
    else if IsBreak(s, from) then from
    else NextBreak(s, from + 1)
  }

  /** The cards of a deck, in order. */
  function SplitCards(s: string): (cards: seq<string>)
    ensures |cards| >= 1
    decreases |s|
  {
    var i := NextBreak(s, 0);
    if i == |s| then [s] else [s[..i]] + SplitCards(s[i + 1..])
  }

  /** What a split produces: at least one card, each after the first opens
      with a heading, and none holds a newline followed by a heading. */
  predicate ValidCards(cards: seq<string>) {
    && |cards| >= 1
    && (forall k :: 1 <= k < |cards| ==> StartsWith(cards[k], Heading))
    && (forall k :: 0 <= k < |cards| ==> NoBreak(cards[k]))
  }

  /** Rejoining the cards with the newlines the split dropped gives the
      deck back. */
  lemma {:induction false} JoinSplit(s: string)
    ensures Join("\n", SplitCards(s)) == s
    decreases |s|
  {
    var i := NextBreak(s, 0);
    if i < |s| {
      var rest := SplitCards(s[i + 1..]);
      JoinSplit(s[i + 1..]);
      assert ([s[..i]] + rest)[1..] == rest;
      assert s == s[..i] + "\n" + s[i + 1..];
    }
  }

  /** A match inside a prefix is a match of the whole. */
  lemma PrefixBreak(s: string, i: nat, j: int)
    requires i <= |s| && IsBreak(s[..i], j)
    ensures IsBreak(s, j)
  {
    assert s[..i][j + 1..j + 5] == s[j + 1..j + 5];
  }

  /** Every split is a valid card sequence. */
  lemma {:induction false} SplitIsValid(s: string)
    ensures ValidCards(SplitCards(s))
    decreases |s|
  {
    var i := NextBreak(s, 0);
    if i == |s| {
      forall j | 0 <= j < |s|
        ensures !IsBreak(s, j)
      {
      }
    } else {
      var rest := SplitCards(s[i + 1..]);
      SplitIsValid(s[i + 1..]);
      forall j | 0 <= j < i
        ensures !IsBreak(s[..i], j)
      {
        if IsBreak(s[..i], j) {
          PrefixBreak(s, i, j);
        }
      }
      assert s[i + 1..][..4] == s[i + 1..i + 5];
      var cards := [s[..i]] + rest;
      forall k | 1 <= k < |cards|
        ensures StartsWith(cards[k], Heading)
      {
        assert cards[k] == rest[k - 1];
      }
      forall k | 0 <= k < |cards|
        ensures NoBreak(cards[k])
      {
        if k > 0 {
          assert cards[k] == rest[k - 1];
        }
      }
    }
  }

  /** A card with no break, followed by a newline and a heading: the first
      match is that newline. */
  lemma FirstBreakAtSeam(c: string, tail: string)
    requires NoBreak(c) && StartsWith(tail, Heading)
    ensures NextBreak(c + "\n" + tail, 0) == |c|
  {
    var s := c + "\n" + tail;
    SeamIsBreak(c, tail);
    forall j | 0 <= j < |c|
      ensures !IsBreak(s, j)
    {
      SeamFreeBefore(c, tail, j);
    }
    FirstBreakIs(s, |c|);
  }

  lemma SeamIsBreak(c: string, tail: string)
    requires StartsWith(tail, Heading)
    ensures IsBreak(c + "\n" + tail, |c|)
  {
    var s := c + "\n" + tail;
    assert s[|c| + 1..|c| + 5] == tail[..4];
  }

  /** A match with no match before it is the first one. */
  lemma FirstBreakIs(s: string, i: nat)
    requires IsBreak(s, i) && forall j :: 0 <= j < i ==> !IsBreak(s, j)
    ensures NextBreak(s, 0) == i
  {
  }

  /** No match of the joined string starts inside the card. */
  lemma SeamFreeBefore(c: string, tail: string, i: nat)
    requires NoBreak(c) && i < |c|
    ensures !IsBreak(c + "\n" + tail, i)
  {
    var s := c + "\n" + tail;
    if i + 5 <= |c| {
      assert !IsBreak(c, i);
      assert s[i] == c[i] && c[i + 1..i + 5] == s[i + 1..i + 5];
    } else if i + 5 <= |s| {
      assert s[i + 1..i + 5][|c| - i - 1] == s[|c|] == '\n';
    }
  }

  /** The other direction: splitting the join of valid cards gives the
      cards back. */
  lemma {:induction false} SplitJoin(cards: seq<string>)
    requires ValidCards(cards)
    ensures SplitCards(Join("\n", cards)) == cards
    decreases |cards|
  {
    var s := Join("\n", cards);
    if |cards| == 1 {
      assert NoBreak(cards[0]);
      assert NextBreak(s, 0) == |s|;
    } else {
      var rest := cards[1..];
      assert ValidCards(rest) by {
        forall k | 1 <= k < |rest|
          ensures StartsWith(rest[k], Heading)
        {
          assert rest[k] == cards[k + 1];
        }
        forall k | 0 <= k < |rest|
          ensures NoBreak(rest[k])
        {
          assert rest[k] == cards[k + 1];
        }
      }
      var tail := Join("\n", rest);
      JoinStartsWithFirst(rest);
      assert StartsWith(cards[1], Heading);
      assert StartsWith(tail, Heading);
      assert NoBreak(cards[0]);
      FirstBreakAtSeam(cards[0], tail);
      assert s == cards[0] + "\n" + tail;
      assert s[..|cards[0]|] == cards[0];
      assert s[|cards[0]| + 1..] == tail;
      SplitJoin(rest);
    }
  }

  /** A join opens with its first part. */
  lemma {:induction false} JoinStartsWithFirst(parts: seq<string>)
    requires |parts| >= 1
    ensures StartsWith(Join("\n", parts), parts[0])
  {
    if |parts| > 1 {
      assert Join("\n", parts) == parts[0] + "\n" + Join("\n", parts[1..]);
    }
  }

  /** The page's "no flashcards" test: the split is `[""]` exactly for the
      empty deck. */
  lemma NoCardsIffEmpty(s: string)
    ensures SplitCards(s) == [""] <==> s == ""
  {
    JoinSplit(s);
  }
}
