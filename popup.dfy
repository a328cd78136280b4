/** The popup: on opening it empties its list and adds one line per stored
    key, showing the key and either the mean rating or "No Reviews". It only
    reads storage. */
module Popup {
  import opened Wrappers
  import opened Ratings
  import opened Cache
  import Content

  const RatingLabel := "Rating: "

  /** The text after the key: "No Reviews" exactly when `reviews` is absent
      or empty; otherwise "Rating: " and digits that read back as the mean
      rounded to one decimal. It never holds a `<`. */
  function Summary(e: Entry): (r: string)
    ensures r == "No Reviews" <==> e.reviews.None? || e.reviews.value == []
    ensures e.reviews.Some? && e.reviews.value != [] ==>
      && |r| > |RatingLabel| && r[..|RatingLabel|] == RatingLabel
      && ParseFixed1(r[|RatingLabel|..]) == Some(RoundedToTenths(Mean(e.reviews.value)))
    ensures '<' !in r
  {
    if e.reviews.Some? && |e.reviews.value| > 0 then
      var digits := ToFixed1(Mean(e.reviews.value));
      ToFixed1Denotes(Mean(e.reviews.value));
      var r := RatingLabel + digits;
      assert r[|RatingLabel|..] == digits;
      assert r[0] == 'R';
      assert forall i :: 8 <= i < |r| ==> r[i] == digits[i - 8];
      r
    else "No Reviews"
  }

  /** The `innerHTML` of one list item. */
  function EntryLine(key: string, e: Entry): string
  {
    "<span>" + key + "</span>: " + Summary(e)
  }

  /** In a line, the `<` that closes the key is the last `<`. */
  lemma LastOpenBracket(key: string, e: Entry)
    ensures |EntryLine(key, e)| > 6 + |key| && EntryLine(key, e)[6 + |key|] == '<'
    ensures forall p :: 6 + |key| < p < |EntryLine(key, e)| ==> EntryLine(key, e)[p] != '<'
  {
    var line := EntryLine(key, e);
    var tail := "</span>: ";
    var s := Summary(e);
    assert line == "<span>" + key + tail + s;
    forall p | 6 + |key| < p < |line|
      ensures line[p] != '<'
    {
      if p < 6 + |key| + |tail| {
        assert line[p] == tail[p - 6 - |key|];
      } else {
        assert line[p] == s[p - 6 - |key| - |tail|];
      }
    }
  }

  /** Different keys never render to the same line. */
  lemma EntryLineInjective(k1: string, e1: Entry, k2: string, e2: Entry)
    requires EntryLine(k1, e1) == EntryLine(k2, e2)
    ensures k1 == k2
  {
    LastOpenBracket(k1, e1);
    LastOpenBracket(k2, e2);
    var line := EntryLine(k1, e1);
    assert |k1| == |k2|;
    assert line[6..6 + |k1|] == k1;
    assert EntryLine(k2, e2)[6..6 + |k2|] == k2;
  }

  /** The popup shows the same rating the page appends. */
  lemma SummaryMatchesPage(e: Entry)
    requires e.reviews.Some?
    ensures Content.RatingText(e.reviews.value) == " - " + Summary(e)
  {
    var rs := e.reviews.value;
    if rs != [] {
      var digits := ToFixed1(Mean(rs));
      assert Summary(e) == RatingLabel + digits;
      assert Content.RatingText(rs) == Content.RatingPrefix + digits;
      LabelAfterDash(digits);
    } else {
      assert Content.RatingText(rs) == Content.NoReviewsText;
    }
  }

  /** The lines a storage map renders to, one per key. */
  function RenderedLines(m: map<string, Entry>): set<string>
  {
    set k | k in m :: EntryLine(k, m[k])
  }

  lemma LabelAfterDash(digits: string)
    ensures Content.RatingPrefix + digits == " - " + (RatingLabel + digits)
  {
    assert Content.RatingPrefix == " - " + RatingLabel;
  }

  /** The popup's `rating-list` element: the `innerHTML` of each item. */
  class RatingList {
    var items: seq<string>

    constructor ()
      ensures items == []
    {
      items := [];
    }
  }

  /** `items` holds, at each position, the line of the key `order` names
      there, and every such key is stored. */
  predicate LinesFor(stored: map<string, Entry>, order: seq<string>, items: seq<string>)
  {
    && |items| == |order|
    && forall i :: 0 <= i < |order| ==>
      order[i] in stored && items[i] == EntryLine(order[i], stored[order[i]])
  }

  /** `displayRatings`: the list is emptied, then gets one line per stored
      key (in some order, given back as `order`), so what is shown depends
      only on storage, not on what the list held before; storage is not
      written. */
  method DisplayRatings(list: RatingList, store: Store) returns (ghost order: seq<string>)
    modifies list
    ensures store.entries == old(store.entries)
    ensures |order| == |store.entries|
    ensures forall k :: k in store.entries <==> k in order
    ensures LinesFor(store.entries, order, list.items)
    ensures forall i, j :: 0 <= i < j < |list.items| ==> list.items[i] != list.items[j]
    ensures forall line :: line in list.items <==> line in RenderedLines(store.entries)
  {
    list.items := [];
    order := [];
    var stored := store.entries;
    var remaining := stored.Keys;
    while remaining != {}
      invariant remaining <= stored.Keys
      invariant |order| + |remaining| == |stored.Keys|
      invariant forall k :: k in stored ==> (k in order <==> k !in remaining)
      invariant LinesFor(stored, order, list.items)
      invariant forall i, j :: 0 <= i < j < |order| ==> order[i] != order[j]
      decreases remaining
    {
      var key :| key in remaining;
      list.items := list.items + [EntryLine(key, stored[key])];
      order := order + [key];
      remaining := remaining - {key};
    }
    LinesDistinct(stored, order, list.items);
    LinesRendered(stored, order, list.items);
  }

  /** Lines rendered for distinct keys are distinct. */
  lemma LinesDistinct(stored: map<string, Entry>, order: seq<string>, items: seq<string>)
    requires LinesFor(stored, order, items)
    requires forall i, j :: 0 <= i < j < |order| ==> order[i] != order[j]
    ensures forall i, j :: 0 <= i < j < |items| ==> items[i] != items[j]
  {
    forall i, j | 0 <= i < j < |items|
      ensures items[i] != items[j]
    {
      if items[i] == items[j] {
        EntryLineInjective(order[i], stored[order[i]], order[j], stored[order[j]]);
      }
    }
  }

  /** Lines rendered for every key, each once, are the map's rendered lines. */
  lemma LinesRendered(stored: map<string, Entry>, order: seq<string>, items: seq<string>)
    requires LinesFor(stored, order, items)
    requires forall k :: k in stored <==> k in order
    ensures forall line :: line in items <==> line in RenderedLines(stored)
  {
    forall line | line in RenderedLines(stored)
      ensures line in items
    {
      var k :| k in stored && line == EntryLine(k, stored[k]);
      var i :| 0 <= i < |order| && order[i] == k;
      assert items[i] == line;
    }
  }
}
