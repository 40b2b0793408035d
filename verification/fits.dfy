/** The part of a FITS header the scripts rely on.

    A header is an ordered list of keyword cards. Reading `header[key]`
    returns the value of the FIRST card with that keyword, and `header[key] = v`
    overwrites that card or adds a new one; the library accepts only
    printable ASCII in a string value. `header.extend(cards)` appends the cards one at a
    time with the library's defaults: duplicate keywords are kept, keyword
    cards go before any commentary cards (COMMENT, HISTORY, blank) that end
    the header, and each non-blank appended card uses up one trailing blank
    card, if there is one.
 */
module Fits {
  import opened Outcomes

  /** A card value: the scripts store strings, integers and floats. */
  datatype Value = Str(s: string) | Int(i: int) | Real(x: real)

  datatype Card = Card(key: string, value: Value)

  type Header = seq<Card>

  /** A header-data unit with a one-dimensional integer data array. */
  datatype Hdu = Hdu(data: seq<int>, header: Header)

  /** `key` names some card of `h`. */
  predicate HasKey(h: Header, key: string)
  {
    exists i :: 0 <= i < |h| && h[i].key == key
  }

  /** `header[key]`: the value of the first card named `key`, or `None`
      where the library raises KeyError. */
  function Lookup(h: Header, key: string): (r: Option<Value>)
    ensures r.None? <==> !HasKey(h, key)
    ensures r.Some? ==> exists i :: 0 <= i < |h| && h[i] == Card(key, r.value)
                                    && forall j :: 0 <= j < i ==> h[j].key != key
  {
    if |h| == 0 then None
    else if h[0].key == key then Some(h[0].value)
    else
      var r := Lookup(h[1..], key);
      assert forall i :: 1 <= i < |h| ==> h[i] == h[1..][i - 1];
      r
  }

  /** `header[key] = v`: overwrite the first card named `key`, or append a
      new card when there is none. */
  function Set(h: Header, key: string, v: Value): (r: Header)
    ensures Lookup(r, key) == Some(v)
    ensures forall k :: k != key ==> Lookup(r, k) == Lookup(h, k)
    ensures |r| == if HasKey(h, key) then |h| else |h| + 1
  {
    if |h| == 0 then [Card(key, v)]
    else if h[0].key == key then
      var r := [Card(key, v)] + h[1..];
      assert r[1..] == h[1..];
      r
    else
      var rest := Set(h[1..], key, v);
      var r := [h[0]] + rest;
      assert r[0] == h[0] && r[1..] == rest;
      forall k | k != key ensures Lookup(r, k) == Lookup(h, k) {
        if h[0].key != k {
          assert Lookup(r, k) == Lookup(rest, k);
        }
      }
      HasKeyTail(h, key);
      r
  }

  /** Past a first card with another keyword, `key` occurs in `h` exactly
      when it occurs in the rest. */
  lemma HasKeyTail(h: Header, key: string)
    requires |h| > 0 && h[0].key != key
    ensures HasKey(h, key) <==> HasKey(h[1..], key)
  {
    assert forall i :: 1 <= i < |h| ==> h[i] == h[1..][i - 1];
  }

  /** Looking a key up in `h + cards` finds it in `h` first. */
  lemma {:induction false} LookupAppend(h: Header, cards: Header, key: string)
    ensures Lookup(h + cards, key) ==
              if HasKey(h, key) then Lookup(h, key) else Lookup(cards, key)
    decreases |h|
  {
    if |h| == 0 {
      assert h + cards == cards;
    } else {
      assert (h + cards)[0] == h[0];
      assert (h + cards)[1..] == h[1..] + cards;
      LookupAppend(h[1..], cards, key);
      if h[0].key == key {
        assert HasKey(h, key) by { assert h[0].key == key; }
      } else {
        HasKeyTail(h, key);
      }
    }
  }

  /* ------------------------------------------------------- value check */

  /** Every character is printable ASCII, space to tilde: the only strings
      the library accepts as card values. */
  predicate PrintableAscii(s: string)
  {
    forall k :: 0 <= k < |s| ==> ' ' <= s[k] <= '~'
  }

  /* ------------------------------------------------------------ appending */

  /** The keywords the library treats as commentary rather than as keys. */
  predicate IsCommentary(key: string)
  {
    key == "" || key == "COMMENT" || key == "HISTORY" || key == "END"
  }

  /** A blank card: no keyword and an empty value. */
  predicate IsBlank(c: Card)
  {
    c.key == "" && c.value == Str("")
  }

  /** Start of the run of blank cards that ends `h`. */
  function BlankTail(h: Header): (i: nat)
    ensures i <= |h|
    ensures forall j :: i <= j < |h| ==> IsBlank(h[j])
    ensures i > 0 ==> !IsBlank(h[i - 1])
  {
    if |h| == 0 || !IsBlank(h[|h| - 1]) then |h| else BlankTail(h[..|h| - 1])
  }

  /** Start of the run of commentary cards that ends `h`. */
  function CommentaryTail(h: Header): (i: nat)
    ensures i <= |h|
    ensures forall j :: i <= j < |h| ==> IsCommentary(h[j].key)
    ensures i > 0 ==> !IsCommentary(h[i - 1].key)
  {
    if |h| == 0 || !IsCommentary(h[|h| - 1].key) then |h| else CommentaryTail(h[..|h| - 1])
  }

  /** The keyword cards of `h`, commentary cards left out, in order. */
  function KeywordCards(h: Header): Header
  {
    if |h| == 0 then []
    else (if IsCommentary(h[0].key) then [] else [h[0]]) + KeywordCards(h[1..])
  }

  lemma {:induction false} KeywordCardsAppend(a: Header, b: Header)
    ensures KeywordCards(a + b) == KeywordCards(a) + KeywordCards(b)
    decreases |a|
  {
    if |a| == 0 {
      assert a + b == b;
    } else {
      assert (a + b)[0] == a[0] && (a + b)[1..] == a[1..] + b;
      KeywordCardsAppend(a[1..], b);
    }
  }

  /** A run of commentary cards has no keyword cards. */
  lemma {:induction false} KeywordCardsOfCommentary(h: Header)
    requires forall j :: 0 <= j < |h| ==> IsCommentary(h[j].key)
    ensures KeywordCards(h) == []
    decreases |h|
  {
    if |h| > 0 {
      KeywordCardsOfCommentary(h[1..]);
    }
  }

  /** Keyword cards only: nothing is filtered out. */
  lemma {:induction false} KeywordCardsOfKeywords(h: Header)
    requires forall j :: 0 <= j < |h| ==> !IsCommentary(h[j].key)
    ensures KeywordCards(h) == h
    decreases |h|
  {
    if |h| > 0 {
      assert forall j :: 0 <= j < |h[1..]| ==> h[1..][j] == h[j + 1];
      KeywordCardsOfKeywords(h[1..]);
      assert [h[0]] + h[1..] == h;
    }
  }

  /** A header equal to its own keyword cards holds no commentary card. */
  lemma KeywordCardsOnly(h: Header)
    requires KeywordCards(h) == h
    ensures forall j :: 0 <= j < |h| ==> !IsCommentary(h[j].key)
  {
    KeywordCardsAreKeywords(h);
  }

  lemma {:induction false} KeywordCardsAreKeywords(h: Header)
    ensures forall j :: 0 <= j < |KeywordCards(h)| ==> !IsCommentary(KeywordCards(h)[j].key)
    decreases |h|
  {
    if |h| > 0 {
      KeywordCardsAreKeywords(h[1..]);
    }
  }

  /** Dropping a last card whose keyword is not `k` does not change what `k`
      reads. */
  lemma LookupDropLast(t: Header, k: string)
    requires |t| > 0 && t[|t| - 1].key != k
    ensures Lookup(t[..|t| - 1], k) == Lookup(t, k)
  {
    var front, last := t[..|t| - 1], t[|t| - 1];
    assert front + [last] == t;
    assert Lookup([last], k) == None by {
      assert [last][1..] == [];
    }
    LookupAppend(front, [last], k);
  }

  /** Putting card `c` above `b` instead of after it changes no read of
      `k`, provided that when `k` is the card's own keyword `b` lacks it. */
  lemma LookupInsert(a: Header, b: Header, c: Card, k: string)
    requires k == c.key ==> !HasKey(b, k)
    ensures Lookup(a + [c] + b, k) == Lookup(a + b + [c], k)
  {
    assert a + [c] + b == a + ([c] + b);
    assert a + b + [c] == a + (b + [c]);
    LookupAppend(a, [c] + b, k);
    LookupAppend(a, b + [c], k);
    LookupAppend(b, [c], k);
    if k != c.key {
      assert ([c] + b)[1..] == b;
    }
  }

  /** Headers that read `k` alike still do so after the same cards are
      appended to both. */
  lemma LookupAgree(a: Header, b: Header, rest: Header, k: string)
    requires Lookup(a, k) == Lookup(b, k)
    ensures Lookup(a + rest, k) == Lookup(b + rest, k)
  {
    LookupAppend(a, rest, k);
    LookupAppend(b, rest, k);
  }

  /** Where `append` puts a non-blank card `c`: before the blank cards that
      end `h`, and a keyword card also before the commentary cards just
      above them. */
  function InsertionPoint(h: Header, c: Card): (i: nat)
    ensures i <= |h|
    ensures forall j :: i <= j < |h| ==> IsCommentary(h[j].key)
    ensures IsCommentary(c.key) ==> forall j :: i <= j < |h| ==> IsBlank(h[j])
  {
    if IsCommentary(c.key) then BlankTail(h) else CommentaryTail(h)
  }

  /** `h` with the non-blank card `c` put in at `InsertionPoint`. */
  function Inserted(h: Header, c: Card): (t: Header)
    ensures |t| == |h| + 1
  {
    var i := InsertionPoint(h, c);
    h[..i] + [c] + h[i..]
  }

  /** `h` without its last card when that card is blank. */
  function DropBlank(t: Header): (r: Header)
    ensures |t| - 1 <= |r| <= |t|
  {
    if |t| > 0 && IsBlank(t[|t| - 1]) then t[..|t| - 1] else t
  }

  /** `header.append(card)` with the library's defaults (`useblanks=True`,
      `bottom=False`). A blank card goes to the very end. Any other card goes
      in at `InsertionPoint`, and if the header then still ends in a blank
      card, that card is used up. */
  function Append(h: Header, c: Card): (r: Header)
    ensures |h| <= |r| <= |h| + 1
  {
    if IsBlank(c) then h + [c] else DropBlank(Inserted(h, c))
  }

  /** Apart from the blank keyword, a header after `append` reads like the
      plain concatenation `h + [c]`. */
  lemma AppendReads(h: Header, c: Card, k: string)
    requires k != ""
    ensures Lookup(Append(h, c), k) == Lookup(h + [c], k)
  {
    if !IsBlank(c) {
      InsertedReads(h, c, k);
      DropBlankReads(Inserted(h, c), k);
    }
  }

  lemma InsertedReads(h: Header, c: Card, k: string)
    requires !IsBlank(c) && k != ""
    ensures Lookup(Inserted(h, c), k) == Lookup(h + [c], k)
  {
    var i := InsertionPoint(h, c);
    if k == c.key {
      KeyNotInSuffix(h, i, c);
    }
    assert h[..i] + h[i..] == h;
    LookupInsert(h[..i], h[i..], c, k);
  }

  lemma DropBlankReads(t: Header, k: string)
    requires k != ""
    ensures Lookup(DropBlank(t), k) == Lookup(t, k)
  {
    if |t| > 0 && IsBlank(t[|t| - 1]) {
      LookupDropLast(t, k);
    }
  }

  /** The cards `append` passes over never carry the inserted card's own
      keyword, unless that keyword is the blank one. */
  lemma KeyNotInSuffix(h: Header, i: nat, c: Card)
    requires !IsBlank(c) && c.key != ""
    requires i == InsertionPoint(h, c)
    ensures !HasKey(h[i..], c.key)
  {
    assert forall j :: 0 <= j < |h[i..]| ==> h[i..][j] == h[i + j];
  }

  /** The keyword cards after `append` are the old ones followed by the new
      card, if it is one. */
  lemma AppendKeywordCards(h: Header, c: Card)
    ensures KeywordCards(Append(h, c)) == KeywordCards(h) + KeywordCards([c])
  {
    if IsBlank(c) {
      KeywordCardsAppend(h, [c]);
    } else {
      var i := InsertionPoint(h, c);
      CommentarySuffix(h, i);
      assert h[..i] + h[i..] == h;
      InsertKeywordCards(h[..i], h[i..], c);
      var t := Inserted(h, c);
      if IsBlank(t[|t| - 1]) {
        DropKeywordCards(t);
      }
    }
  }

  /** A suffix of commentary cards holds no keyword cards. */
  lemma CommentarySuffix(h: Header, i: nat)
    requires i <= |h|
    requires forall j :: i <= j < |h| ==> IsCommentary(h[j].key)
    ensures KeywordCards(h[i..]) == []
  {
    assert forall j :: 0 <= j < |h[i..]| ==> h[i..][j] == h[i + j];
    KeywordCardsOfCommentary(h[i..]);
  }

  /** Inserting `c` just above cards that hold no keyword card keeps the
      keyword cards in append order. */
  lemma InsertKeywordCards(a: Header, b: Header, c: Card)
    requires KeywordCards(b) == []
    ensures KeywordCards(a + [c] + b) == KeywordCards(a + b) + KeywordCards([c])
  {
    KeywordCardsAppend(a, b);
    KeywordCardsAppend(a + [c], b);
    KeywordCardsAppend(a, [c]);
  }

  /** Dropping a trailing commentary card leaves the keyword cards alone. */
  lemma DropKeywordCards(t: Header)
    requires |t| > 0 && IsCommentary(t[|t| - 1].key)
    ensures KeywordCards(t[..|t| - 1]) == KeywordCards(t)
  {
    var last := [t[|t| - 1]];
    assert t[..|t| - 1] + last == t;
    KeywordCardsAppend(t[..|t| - 1], last);
    KeywordCardsOfCommentary(last);
  }

  /** `header.extend(cards)` with the library's defaults: the cards are
      appended one by one, duplicates kept; each may use up a trailing blank
      card, so the header grows by at most the number of cards. */
  function Extend(h: Header, cards: Header): (r: Header)
    ensures |h| <= |r| <= |h| + |cards|
    decreases |cards|
  {
    if |cards| == 0 then h else Extend(Append(h, cards[0]), cards[1..])
  }

  /** Apart from the blank keyword, an extended header reads like the plain
      concatenation `h + cards`: a keyword already present keeps its value,
      and an absent one reads as in `cards`. */
  lemma ExtendReads(h: Header, cards: Header, k: string)
    requires k != ""
    ensures Lookup(Extend(h, cards), k) == Lookup(h + cards, k)
    ensures Lookup(Extend(h, cards), k) ==
              if HasKey(h, k) then Lookup(h, k) else Lookup(cards, k)
  {
    ExtendReadsConcat(h, cards, k);
    LookupAppend(h, cards, k);
  }

  /** `ExtendReads` for every keyword at once. */
  lemma ExtendReadsAll(h: Header, cards: Header)
    ensures forall k :: k != "" && HasKey(h, k) ==> Lookup(Extend(h, cards), k) == Lookup(h, k)
    ensures forall k :: k != "" && !HasKey(h, k) ==> Lookup(Extend(h, cards), k) == Lookup(cards, k)
    ensures forall k :: k != "" && !HasKey(cards, k) ==> Lookup(Extend(h, cards), k) == Lookup(h, k)
  {
    forall k | k != "" ensures Lookup(Extend(h, cards), k) ==
                                 if HasKey(h, k) then Lookup(h, k) else Lookup(cards, k) {
      ExtendReads(h, cards, k);
    }
  }

  lemma {:induction false} ExtendReadsConcat(h: Header, cards: Header, k: string)
    requires k != ""
    ensures Lookup(Extend(h, cards), k) == Lookup(h + cards, k)
    decreases |cards|
  {
    if |cards| == 0 {
      assert h + cards == h;
    } else {
      var c, rest := cards[0], cards[1..];
      var h1 := Append(h, c);
      assert Lookup(Extend(h, cards), k) == Lookup(h1 + rest, k) by {
        assert Extend(h, cards) == Extend(h1, rest);
        ExtendReadsConcat(h1, rest, k);
      }
      assert Lookup(h1 + rest, k) == Lookup(h + [c] + rest, k) by {
        AppendReads(h, c, k);
        LookupAgree(h1, h + [c], rest, k);
      }
      assert h + [c] + rest == h + cards;
    }
  }

  /** The keyword cards of an extended header are the old ones followed by
      the added ones, in order. */
  lemma {:induction false} ExtendKeywordCards(h: Header, cards: Header)
    ensures KeywordCards(Extend(h, cards)) == KeywordCards(h) + KeywordCards(cards)
    decreases |cards|
  {
    if |cards| == 0 {
      assert KeywordCards(cards) == [];
    } else {
      var c, rest := cards[0], cards[1..];
      var h1 := Append(h, c);
      assert Extend(h, cards) == Extend(h1, rest);
      ExtendKeywordCards(h1, rest);
      AppendKeywordCards(h, c);
      assert [c] + rest == cards;
      KeywordCardsAppend([c], rest);
      AppendAssociates(KeywordCards(h), KeywordCards([c]), KeywordCards(rest));
    }
  }

  lemma AppendAssociates(a: Header, b: Header, c: Header)
    ensures a + b + c == a + (b + c)
  {
  }

  /** On a header that ends in a keyword card, extending by keyword cards is
      plain concatenation. */
  lemma {:induction false} ExtendPlain(h: Header, cards: Header)
    requires |h| == 0 || !IsCommentary(h[|h| - 1].key)
    requires forall j :: 0 <= j < |cards| ==> !IsCommentary(cards[j].key)
    ensures Extend(h, cards) == h + cards
    decreases |cards|
  {
    if |cards| == 0 {
      assert h + cards == h;
    } else {
      var c, rest := cards[0], cards[1..];
      AppendPlain(h, c);
      assert forall j :: 0 <= j < |rest| ==> rest[j] == cards[j + 1];
      ExtendPlain(h + [c], rest);
      SplitFirst(h, cards);
    }
  }

  lemma SplitFirst(h: Header, cards: Header)
    requires |cards| > 0
    ensures h + [cards[0]] + cards[1..] == h + cards
  {
  }

  /** Appending a keyword card to a header that ends in one puts it last. */
  lemma AppendPlain(h: Header, c: Card)
    requires |h| == 0 || !IsCommentary(h[|h| - 1].key)
    requires !IsCommentary(c.key)
    ensures Append(h, c) == h + [c]
  {
    assert !IsBlank(c) && InsertionPoint(h, c) == |h|;
    assert h[..|h|] + [c] + h[|h|..] == h + [c];
  }
}
