/** The extension's local storage (`chrome.storage.local`): a flat map from a
    display key to the review payload stored under it. */
module Cache {
  import opened Wrappers
  import opened Ratings

  /** A stored value. `reviews` is `None` when the stored object's
      `reviews` is undefined or null; `fields` are the payload's other properties
      (`professorName` and whatever else the service sends), kept verbatim. */
  datatype Entry = Entry(reviews: Option<seq<Review>>, fields: map<string, string>)

  /** `{ reviews: [] }`: "looked up, nothing to show". */
  const NoReviewsEntry: Entry := Entry(Some([]), map[])

  /** A pending single-key write, `set({ [key]: value })`, or none. */
  type Write = Option<(string, Entry)>

  function ApplyWrite(m: map<string, Entry>, w: Write): (r: map<string, Entry>)
    ensures w.None? ==> r == m
    ensures w.Some? ==> r.Keys == m.Keys + {w.value.0} && r[w.value.0] == w.value.1
    ensures forall k :: k in m && (w.None? || k != w.value.0) ==> k in r && r[k] == m[k]
  {
    match w
    case None => m
    case Some((k, e)) => m[k := e]
  }

  /** Every stored value has a `reviews` array: the only two shapes the
      extension ever writes. */
  ghost predicate WellFormed(m: map<string, Entry>)
  {
    forall k :: k in m ==> m[k].reviews.Some?
  }

  class Store {
    var entries: map<string, Entry>

    constructor (initial: map<string, Entry>)
      ensures entries == initial
    {
      entries := initial;
    }

    /** `get([key])`, seen from its callback. */
    method Get(key: string) returns (e: Option<Entry>)
      ensures e.Some? <==> key in entries
      ensures e.Some? ==> e.value == entries[key]
    {
      if key in entries {
        e := Some(entries[key]);
      } else {
        e := None;
      }
    }

    /** `set({ [key]: value })`: one key written, every other untouched. */
    method Set(key: string, value: Entry)
      modifies this
      ensures entries == old(entries)[key := value]
    {
      entries := entries[key := value];
    }
  }
}
