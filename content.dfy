/** The content script: names are scraped from the page's name links,
    reformatted, looked up in storage (asking the background on a miss) and
    the matching links get a rating suffix appended to their text. */
module Content {
  import opened Wrappers
  import opened Strings
  import opened Ratings
  import opened Cache
  import opened Background

  /** `formatProfessorName`: a name with exactly one comma, `"Last, First"`,
      becomes `"First Last"` (both halves trimmed) and holds no comma; any
      other name comes back unchanged. Only the empty name formats to the
      empty string. */
  function FormatProfessorName(professorName: string): (r: string)
    ensures Count(professorName, ',') != 1 ==> r == professorName
    ensures Count(professorName, ',') == 1 ==> ',' !in r
    ensures r == [] <==> professorName == []
  {
    var parts := Split(professorName, ',');
    if |parts| == 2 then
      TrimKeepsAbsent(parts[0], ',');
      TrimKeepsAbsent(parts[1], ',');
      Trim(parts[1]) + " " + Trim(parts[0])
    else professorName
  }

  /** The swap, stated on the two halves. */
  lemma FormatSwapsHalves(last: string, first: string)
    requires ',' !in last && ',' !in first
    ensures FormatProfessorName(last + "," + first) == Trim(first) + " " + Trim(last)
  {
    var name := last + "," + first;
    assert name == last + [','] + first;
    SplitAtFirst(last, first, ',');
    SplitNoSeparator(first, ',');
    var parts := Split(name, ',');
    assert parts == [last, first];
  }

  /** `element.innerText.split('(')[0].trim()`: the text before the first
      parenthesis, trimmed. It holds no parenthesis and no surrounding
      whitespace. */
  function ExtractName(text: string): (r: string)
    ensures '(' !in r
    ensures Trimmed(r)
  {
    var head := Split(text, '(')[0];
    TrimKeepsAbsent(head, '(');
    Trim(head)
  }

  lemma ExtractNameBeforeParen(before: string, after: string)
    requires '(' !in before
    ensures ExtractName(before + "(" + after) == Trim(before)
  {
    SplitAtFirst(before, after, '(');
    assert "(" == ['('];
  }

  lemma ExtractNameNoParen(text: string)
    requires '(' !in text
    ensures ExtractName(text) == Trim(text)
  {
    SplitNoSeparator(text, '(');
  }

  /** `professorName.split(",").reverse().join(", ").trim()`, the key the
      content script reads and writes. It has no surrounding whitespace, and
      it equals the background's untrimmed key exactly when that one has none
      either. */
  function StorageKey(professorName: string): (key: string)
    ensures Trimmed(key)
    ensures key == ProfessorKey(professorName) <==> Trimmed(ProfessorKey(professorName))
  {
    Trim(ProfessorKey(professorName))
  }

  /** On a comma-free name, which is what a one-comma name formats to, the
      key is just the trimmed name. */
  lemma StorageKeyCommaFree(name: string)
    requires ',' !in name
    ensures StorageKey(name) == Trim(name)
  {
    ProfessorKeyCommaFree(name);
  }

  lemma StorageKeyTwoParts(a: string, b: string)
    requires ',' !in a && ',' !in b
    ensures StorageKey(a + "," + b) == Trim(b + ", " + a)
  {
    ProfessorKeyTwoParts(a, b);
  }

  /** A name with two commas goes through `formatProfessorName` unchanged,
      and its key is its three parts in reverse order, re-joined with ", ". */
  lemma StorageKeyThreeParts(a: string, b: string, c: string)
    requires ',' !in a && ',' !in b && ',' !in c
    ensures FormatProfessorName(a + "," + b + "," + c) == a + "," + b + "," + c
    ensures StorageKey(a + "," + b + "," + c) == Trim(c + ", " + b + ", " + a)
  {
    ProfessorKeyThreeParts(a, b, c);
    assert "," == [','];
    SplitThree(a, b, c, ',');
  }

  /** A two-comma name whose last part starts with whitespace, like the
      scraped `"Smith, John, Jr."`, gets different keys on the two sides: the
      background key starts with that whitespace, the content key does not. */
  lemma ThreePartKeysDisagree(a: string, b: string, c: string)
    requires ',' !in a && ',' !in b && ',' !in c
    requires c != [] && IsWhitespace(c[0])
    ensures StorageKey(a + "," + b + "," + c) != ProfessorKey(a + "," + b + "," + c)
  {
    ProfessorKeyThreeParts(a, b, c);
    var k := c + ", " + b + ", " + a;
    assert k[0] == c[0];
  }

  /** Both keys keep the name's number of commas. */
  lemma StorageKeyCommaCount(name: string)
    ensures Count(StorageKey(name), ',') == Count(name, ',')
    ensures Count(ProfessorKey(name), ',') == Count(name, ',')
  {
    var key := ProfessorKey(name);
    ProfessorKeyCommaCount(name);
    assert !IsWhitespace(',');
    TrimKeepsCount(key, ',');
    assert StorageKey(name) == Trim(key);
  }

  /** The two keys agree on every trimmed comma-free name. */
  lemma KeysAgree(name: string)
    requires ',' !in name && Trimmed(name)
    ensures StorageKey(name) == ProfessorKey(name)
  {
    ProfessorKeyCommaFree(name);
  }

  /** They do not agree in general. A link reading `"Smith, (...)"` scrapes to
      `"Smith,"`, which formats to `" Smith"`; the content script then reads
      the key `"Smith"` while the background writes under `" Smith"`. */
  lemma TrailingCommaKeysDisagree(word: string)
    requires word != [] && ',' !in word && Trimmed(word)
    ensures FormatProfessorName(word + ",") == " " + word
    ensures StorageKey(" " + word) == word
    ensures ProfessorKey(" " + word) == " " + word
  {
    TrailingCommaFormat(word);
    var spaced := " " + word;
    assert ',' !in spaced;
    ProfessorKeyCommaFree(spaced);
    TrimOfPadded(word);
  }

  /** A trimmed word followed by a comma formats to a space and the word:
      the empty second half comes first. */
  lemma TrailingCommaFormat(word: string)
    requires ',' !in word && Trimmed(word)
    ensures FormatProfessorName(word + ",") == " " + word
  {
    TrailingCommaHalves(word);
    SpaceThenTrimmed(word);
  }

  lemma SpaceThenTrimmed(word: string)
    requires Trimmed(word)
    ensures Trim([]) + " " + Trim(word) == " " + word
  {
    var empty: string := [];
    ConcatEmpty(" ");
    assert Trim(empty) == empty && Trim(word) == word;
  }

  lemma TrailingCommaHalves(word: string)
    requires ',' !in word
    ensures FormatProfessorName(word + ",") == Trim([]) + " " + Trim(word)
  {
    var empty: string := [];
    ConcatEmpty(word + ",");
    FormatSwapsHalves(word, empty);
  }

  /** One leading space is trimmed away from an already trimmed word. */
  lemma TrimOfPadded(word: string)
    requires word != [] && Trimmed(word)
    ensures Trim(" " + word) == word
  {
    var s := [' '] + word;
    assert s[0] == ' ' && s[1..] == word;
    assert TrimStart(s) == TrimStart(word);
    assert TrimStart(word) == word;
    assert TrimEnd(word) == word;
    assert " " + word == s;
  }

  const NoReviewsText := " - No Reviews"
  const RatingPrefix := " - Rating: "

  /** The suffix `appendRatingToProfessorName` appends: the no-reviews marker
      exactly when the list is empty, otherwise `" - Rating: "` followed by
      digits that read back as the mean rounded to one decimal. */
  function RatingText(reviews: seq<Review>): (r: string)
    ensures r == NoReviewsText <==> reviews == []
    ensures reviews != [] ==>
      && |r| > |RatingPrefix| && r[..|RatingPrefix|] == RatingPrefix
      && ParseFixed1(r[|RatingPrefix|..]) == Some(RoundedToTenths(Mean(reviews)))
  {
    if |reviews| > 0 then
      var digits := ToFixed1(Mean(reviews));
      ToFixed1Denotes(Mean(reviews));
      var r := RatingPrefix + digits;
      assert r[3] == 'R' && NoReviewsText[3] == 'N';
      assert r[|RatingPrefix|..] == digits;
      r
    else NoReviewsText
  }

  /** Every text that contains the name gets the suffix appended, once; every
      other text stays as it was. */
  function Annotated(texts: seq<string>, name: string, suffix: string): (r: seq<string>)
  {
    seq(|texts|, i requires 0 <= i < |texts| =>
      if Contains(texts[i], name) then texts[i] + suffix else texts[i])
  }

  /** The `forEach` over the name links, appending in place. */
  method Annotate(elements: array<string>, name: string, suffix: string)
    modifies elements
    ensures elements[..] == Annotated(old(elements[..]), name, suffix)
  {
    for i := 0 to elements.Length
      invariant forall k :: 0 <= k < i ==>
        elements[k] == (if Contains(old(elements[k]), name) then old(elements[k]) + suffix else old(elements[k]))
      invariant forall k :: i <= k < elements.Length ==> elements[k] == old(elements[k])
    {
      if Contains(elements[i], name) {
        elements[i] := elements[i] + suffix;
      }
    }
  }

  /** Nothing stops a second pass: a link annotated once still contains the
      name, so annotating again appends the suffix a second time. */
  lemma AnnotationStacks(texts: seq<string>, name: string, suffix: string, i: nat)
    requires i < |texts| && Contains(texts[i], name)
    ensures Annotated(Annotated(texts, name, suffix), name, suffix)[i] == texts[i] + suffix + suffix
  {
    ContainsAppend(texts[i], name, suffix);
  }

  /** What a stored entry does to the page: its suffix on every matching
      link; an entry without a `reviews` property makes `reviews.length`
      throw, and nothing is appended. */
  function EntryAnnotated(texts: seq<string>, name: string, e: Entry): seq<string>
  {
    match e.reviews
    case None => texts
    case Some(rs) => Annotated(texts, name, RatingText(rs))
  }

  method AnnotateWithEntry(elements: array<string>, name: string, e: Entry)
    modifies elements
    ensures elements[..] == EntryAnnotated(old(elements[..]), name, e)
  {
    match e.reviews {
      case None =>
      case Some(rs) =>
        Annotate(elements, name, RatingText(rs));
    }
  }

  /** How one lookup ended: skipped (empty name), answered from storage, or
      answered by the background. */
  datatype Lookup = Skipped | CacheHit | Requested(response: Response)

  /** The request a lookup sends on a miss. */
  function Request(name: string): Message
  {
    Message(FetchAction, Some(name))
  }

  /** `fetchProfessorReviews` (with `storeNoReviews`) run to completion,
      given as three values: how it ended, the storage it leaves and the
      link texts it leaves. */
  function LookupResult(entries: map<string, Entry>, name: string, server: Server): Lookup
  {
    if name == [] then Skipped
    else if StorageKey(name) in entries then CacheHit
    else Requested(HandleMessage(Request(name), server).response.value)
  }

  function LookupEntries(entries: map<string, Entry>, name: string, server: Server): map<string, Entry>
  {
    if name == [] || StorageKey(name) in entries then entries
    else
      var h := HandleMessage(Request(name), server);
      var after := ApplyWrite(entries, h.write);
      if h.response.value.Saved? then after else after[StorageKey(name) := NoReviewsEntry]
  }

  function LookupTexts(entries: map<string, Entry>, texts: seq<string>, name: string, server: Server): seq<string>
  {
    if name == [] then texts
    else
      var key := StorageKey(name);
      if key in entries then EntryAnnotated(texts, name, entries[key])
      else
        var h := HandleMessage(Request(name), server);
        if h.response.value.Saved? then
          var after := ApplyWrite(entries, h.write);
          if key in after then EntryAnnotated(texts, name, after[key]) else texts
        else Annotated(texts, name, NoReviewsText)
  }

  /** `storeNoReviews`: the sentinel under the name's key, then the no-reviews
      suffix on every matching link. */
  method StoreNoReviews(store: Store, elements: array<string>, name: string)
    modifies store, elements
    ensures store.entries == old(store.entries)[StorageKey(name) := NoReviewsEntry]
    ensures elements[..] == Annotated(old(elements[..]), name, NoReviewsText)
  {
    store.Set(StorageKey(name), NoReviewsEntry);
    Annotate(elements, name, RatingText([]));
  }

  /** `fetchProfessorReviews`, step by step against the store and the page. */
  method FetchProfessorReviews(store: Store, elements: array<string>, name: string, server: Server)
    returns (outcome: Lookup)
    modifies store, elements
    ensures outcome == LookupResult(old(store.entries), name, server)
    ensures store.entries == LookupEntries(old(store.entries), name, server)
    ensures elements[..] == LookupTexts(old(store.entries), old(elements[..]), name, server)
  {
    if name == [] {
      return Skipped;
    }
    var key := StorageKey(name);
    var cached := store.Get(key);
    if cached.Some? {
      AnnotateWithEntry(elements, name, cached.value);
      return CacheHit;
    }
    var answer := OnMessage(store, Request(name), server);
    var response := answer.value;
    if response.Saved? {
      var stored := store.Get(key);
      if stored.Some? {
        AnnotateWithEntry(elements, name, stored.value);
      }
    } else {
      StoreNoReviews(store, elements, name);
    }
    outcome := Requested(response);
  }

  /** A request goes out exactly on a miss for a non-empty name; a skipped
      lookup or a cache hit leaves storage and, for a skip, the page as they
      were. */
  lemma LookupRequestsOnlyOnMiss(entries: map<string, Entry>, texts: seq<string>, name: string, server: Server)
    ensures LookupResult(entries, name, server).Requested? <==> name != [] && StorageKey(name) !in entries
    ensures LookupResult(entries, name, server) == Skipped <==> name == []
    ensures !LookupResult(entries, name, server).Requested? ==> LookupEntries(entries, name, server) == entries
    ensures name == [] ==> LookupTexts(entries, texts, name, server) == texts
  {
  }

  /** A failed request writes exactly one key, the content key, with the
      `{ reviews: [] }` sentinel, and marks the matching links "No Reviews". */
  lemma LookupFailureStoresSentinel(entries: map<string, Entry>, texts: seq<string>, name: string, server: Server)
    requires LookupResult(entries, name, server).Requested?
    requires LookupResult(entries, name, server).response.Failed?
    ensures LookupEntries(entries, name, server) == entries[StorageKey(name) := NoReviewsEntry]
    ensures LookupTexts(entries, texts, name, server) == Annotated(texts, name, NoReviewsText)
  {
    assert name != [] && StorageKey(name) !in entries;
    var h := HandleMessage(Request(name), server);
    assert h.response.value.Failed?;
    assert ApplyWrite(entries, h.write) == entries;
  }

  /** A successful request leaves storage with exactly the background's one
      write, a non-empty review list under the background key. */
  lemma LookupSuccessStoresPayload(entries: map<string, Entry>, name: string, server: Server)
    requires LookupResult(entries, name, server).Requested?
    requires LookupResult(entries, name, server).response.Saved?
    ensures exists e: Entry :: (e.reviews.Some? && |e.reviews.value| > 0 &&
      LookupEntries(entries, name, server) == entries[ProfessorKey(name) := e])
  {
    var h := HandleMessage(Request(name), server);
    var e := h.write.value.1;
    assert LookupEntries(entries, name, server) == entries[ProfessorKey(name) := e];
  }

  /** Nothing is ever removed from storage, and the only keys a lookup can
      touch are its content key and its background key. */
  lemma LookupFrame(entries: map<string, Entry>, name: string, server: Server)
    ensures entries.Keys <= LookupEntries(entries, name, server).Keys
    ensures LookupEntries(entries, name, server).Keys <= entries.Keys + {StorageKey(name), ProfessorKey(name)}
    ensures forall k :: k in entries && k != StorageKey(name) && k != ProfessorKey(name) ==>
      LookupEntries(entries, name, server)[k] == entries[k]
  {
    if name != [] && StorageKey(name) !in entries {
      var h := HandleMessage(Request(name), server);
      assert h.write.Some? ==> h.write.value.0 == ProfessorKey(name);
    }
  }

  /** Every entry in storage has a `reviews` array before a lookup, so it
      has one after. */
  lemma LookupKeepsWellFormed(entries: map<string, Entry>, name: string, server: Server)
    requires WellFormed(entries)
    ensures WellFormed(LookupEntries(entries, name, server))
  {
    HandleKeepsWellFormed(entries, Request(name), server);
  }

  /** The page changes only by appending one suffix, the no-reviews marker
      or a rating, to the links that contain the name. */
  lemma LookupOnlyAppends(entries: map<string, Entry>, texts: seq<string>, name: string, server: Server)
    ensures var t := LookupTexts(entries, texts, name, server);
      t == texts || exists rs :: t == Annotated(texts, name, RatingText(rs))
  {
    var t := LookupTexts(entries, texts, name, server);
    if name != [] && t != texts {
      var key := StorageKey(name);
      if key in entries {
        var rs := entries[key].reviews.value;
        assert t == Annotated(texts, name, RatingText(rs));
      } else {
        var h := HandleMessage(Request(name), server);
        if h.response.value.Saved? {
          var after := ApplyWrite(entries, h.write);
          var rs := after[key].reviews.value;
          assert t == Annotated(texts, name, RatingText(rs));
        } else {
          assert t == Annotated(texts, name, RatingText([]));
        }
      }
    }
  }

  /** When the two keys agree, one lookup of a non-empty name leaves its key
      in storage, so the next lookup of that name is a cache hit whatever the
      service would answer. */
  lemma LookupCachesName(entries: map<string, Entry>, name: string, server: Server, later: Server)
    requires name != [] && StorageKey(name) == ProfessorKey(name)
    ensures LookupResult(LookupEntries(entries, name, server), name, later) == CacheHit
  {
    var key := StorageKey(name);
    if key !in entries {
      var h := HandleMessage(Request(name), server);
      if h.response.value.Saved? {
        assert h.write.Some? && h.write.value.0 == key;
      }
    }
    assert key in LookupEntries(entries, name, server);
  }

  /** When they disagree, a successful request leaves the content key
      missing and the page untouched, so every later scan asks again. */
  lemma LookupMissesOnKeyMismatch(entries: map<string, Entry>, texts: seq<string>, name: string, server: Server)
    requires name != [] && StorageKey(name) != ProfessorKey(name) && StorageKey(name) !in entries
    requires LookupResult(entries, name, server).response.Saved?
    ensures StorageKey(name) !in LookupEntries(entries, name, server)
    ensures LookupTexts(entries, texts, name, server) == texts
  {
  }

  /** A first lookup that the service answers with an identifier and a
      valid payload: the payload is stored under the name itself (for a
      trimmed comma-free name both keys are the name), and the matching
      links get the rating. */
  lemma FirstLookupSaved(texts: seq<string>, name: string, server: Server, id: IdValue, payload: Entry)
    requires name != [] && ',' !in name && Trimmed(name)
    requires GetProfessorId(server.search(name)) == Some(id) && Truthy(id)
    requires GetProfessorReviewsById(server.reviewsOf(id)) == Some(payload)
    ensures payload.reviews.Some?
    ensures LookupResult(map[], name, server) == Requested(Saved("Reviews saved for " + name))
    ensures LookupEntries(map[], name, server) == map[name := payload]
    ensures LookupTexts(map[], texts, name, server) == Annotated(texts, name, RatingText(payload.reviews.value))
  {
    KeysAgree(name);
    ProfessorKeyCommaFree(name);
  }

  /** One trailing space is trimmed away from an already trimmed word. */
  lemma TrimOfTrailingSpace(word: string)
    requires word != [] && Trimmed(word)
    ensures Trim(word + " ") == word
  {
    var s := word + [' '];
    assert s[0] == word[0] && s[..|s| - 1] == word;
    assert TrimStart(s) == s;
    assert TrimEnd(s) == TrimEnd(word);
    assert TrimEnd(word) == word;
    assert word + " " == s;
  }

  /** `"Last, First (...)"` scrapes to `"Last, First"`. */
  lemma SwappedLinkScraped(last: string, first: string, rest: string)
    requires last != [] && first != [] && Trimmed(last) && Trimmed(first)
    requires '(' !in last && '(' !in first
    ensures ExtractName(last + ", " + first + " " + "(" + rest) == last + ", " + first
  {
    var scraped := last + ", " + first;
    var before := scraped + " ";
    assert '(' !in before;
    ExtractNameBeforeParen(before, rest);
    assert Trimmed(scraped) by {
      assert scraped[0] == last[0] && scraped[|scraped| - 1] == first[|first| - 1];
    }
    TrimOfTrailingSpace(scraped);
  }

  /** `"Last, First"` formats to `"First Last"`. */
  lemma SwappedFormat(last: string, first: string)
    requires first != [] && Trimmed(last) && Trimmed(first)
    requires ',' !in last && ',' !in first
    ensures FormatProfessorName(last + ", " + first) == first + " " + last
  {
    assert "," + " " == ", ";
    ConcatAssoc(last, ",", " ");
    ConcatAssoc(last + ",", " ", first);
    assert ',' !in " " + first;
    FormatSwapsHalves(last, " " + first);
    TrimOfPadded(first);
  }

  /** A link reading `"Last, First (...)"` is looked up as `"First Last"`. */
  lemma SwappedLinkName(last: string, first: string, rest: string)
    requires last != [] && first != [] && Trimmed(last) && Trimmed(first)
    requires ',' !in last && ',' !in first && '(' !in last && '(' !in first
    ensures NameOf(last + ", " + first + " " + "(" + rest) == [first + " " + last]
  {
    SwappedLinkScraped(last, first, rest);
    SwappedFormat(last, first);
  }

  /** A link in the "Last, First" form and the name it is looked up as. */
  const SwappedLink := "Doe, Jane (CS)"
  const SwappedName := "Jane Doe"

  /** "Doe, Jane (CS)" does not contain "Jane Doe". */
  lemma SwappedLinkLacksName()
    ensures !Contains(SwappedLink, SwappedName)
  {
    var t0, name := SwappedLink, SwappedName;
    var t1 := t0[1..];
    var t2 := t1[1..];
    var t3 := t2[1..];
    var t4 := t3[1..];
    var t5 := t4[1..];
    var t6 := t5[1..];
    PrefixDiffers(t0, name, 0);
    PrefixDiffers(t1, name, 0);
    PrefixDiffers(t2, name, 0);
    PrefixDiffers(t3, name, 0);
    PrefixDiffers(t4, name, 0);
    var t7 := t6[1..];
    assert t5 == "Jane (CS)";
    PrefixDiffers(t5, name, 5);
    PrefixDiffers(t6, name, 0);
    ShortNotContains(t7, name);
  }

  /** Links that do not contain the name are left as they were. */
  lemma AnnotatedSkipsOthers(texts: seq<string>, name: string, suffix: string)
    requires forall i :: 0 <= i < |texts| ==> !Contains(texts[i], name)
    ensures Annotated(texts, name, suffix) == texts
  {
  }

  /** The worked example: ratings 4 and 2 show as `" - Rating: 3.0"`. */
  lemma FirstLookupExample(texts: seq<string>, name: string, server: Server, payload: Entry)
    requires name != [] && ',' !in name && Trimmed(name)
    requires GetProfessorId(server.search(name)) == Some(IdNumber(42))
    requires payload.reviews == Some([Review(4.0, map[]), Review(2.0, map[])])
    requires GetProfessorReviewsById(server.reviewsOf(IdNumber(42))) == Some(payload)
    ensures LookupEntries(map[], name, server) == map[name := payload]
    ensures LookupTexts(map[], texts, name, server) == Annotated(texts, name, " - Rating: 3.0")
  {
    FirstLookupSaved(texts, name, server, IdNumber(42), payload);
    RatingOfFourAndTwo(payload.reviews.value);
  }

  lemma RatingOfFourAndTwo(rs: seq<Review>)
    requires rs == [Review(4.0, map[]), Review(2.0, map[])]
    ensures RatingText(rs) == " - Rating: 3.0"
  {
    MeanOfFourAndTwo(rs);
    MeanExamples();
    assert RatingText(rs) == RatingPrefix + ToFixed1(3.0);
    assert RatingPrefix + "3.0" == " - Rating: 3.0";
  }

  lemma MeanOfFourAndTwo(rs: seq<Review>)
    requires rs == [Review(4.0, map[]), Review(2.0, map[])]
    ensures Mean(rs) == 3.0
  {
    var tail := [Review(2.0, map[])];
    assert rs[1..] == tail && tail[1..] == [];
    assert Sum(tail) == 2.0;
    assert Sum(rs) == 4.0 + Sum(tail);
  }

  /** A first lookup the search cannot resolve ends with the sentinel under
      the content key and "No Reviews" on the matching links. */
  lemma FirstLookupNotFound(texts: seq<string>, name: string, server: Server)
    requires name != []
    requires GetProfessorId(server.search(name)).None?
    ensures LookupResult(map[], name, server) == Requested(Failed(IdNotFound))
    ensures LookupEntries(map[], name, server) == map[StorageKey(name) := NoReviewsEntry]
    ensures LookupTexts(map[], texts, name, server) == Annotated(texts, name, NoReviewsText)
  {
  }

  /** The names `getProfessorNamesAndFetchReviews` hands to
      `fetchProfessorReviews`, in page order: each link's extracted name,
      formatted, skipping the links whose extracted name is empty. None of
      them is empty, so `fetchProfessorReviews`' own empty-name guard never
      fires on them. */
  function ScannedNames(texts: seq<string>): (names: seq<string>)
    ensures |names| <= |texts|
    ensures forall i :: 0 <= i < |names| ==> names[i] != []
  {
    if texts == [] then [] else NameOf(texts[0]) + ScannedNames(texts[1..])
  }

  /** The name one link contributes to a scan: none, or its formatted name. */
  function NameOf(text: string): (names: seq<string>)
    ensures |names| <= 1
    ensures forall i :: 0 <= i < |names| ==> names[i] != []
  {
    var name := ExtractName(text);
    if name == [] then [] else [FormatProfessorName(name)]
  }

  /** Scanning two runs of links one after the other collects the names of
      the first run, then those of the second. */
  lemma {:induction false} ScannedNamesAppend(a: seq<string>, b: seq<string>)
    ensures ScannedNames(a + b) == ScannedNames(a) + ScannedNames(b)
  {
    if a == [] {
      assert a + b == b;
    } else {
      var head := NameOf(a[0]);
      assert (a + b)[0] == a[0] && (a + b)[1..] == a[1..] + b;
      assert ScannedNames(a + b) == head + ScannedNames(a[1..] + b);
      ScannedNamesAppend(a[1..], b);
      ConcatAssoc(head, ScannedNames(a[1..]), ScannedNames(b));
    }
  }

  /** The link at `i` adds its own name to those of the links before it. */
  lemma ScannedNamesSnoc(texts: seq<string>, i: nat)
    requires i < |texts|
    ensures ScannedNames(texts[..i + 1]) == ScannedNames(texts[..i]) + NameOf(texts[i])
  {
    assert texts[..i + 1] == texts[..i] + [texts[i]];
    ScannedNamesAppend(texts[..i], [texts[i]]);
    assert [texts[i]][1..] == [];
  }

  datatype Snapshot = Snapshot(entries: map<string, Entry>, texts: seq<string>)

  /** The lookups of one scan, each run to completion before the next. */
  function RunLookups(entries: map<string, Entry>, texts: seq<string>, names: seq<string>, server: Server): Snapshot
    decreases |names|
  {
    if names == [] then Snapshot(entries, texts)
    else
      RunLookups(LookupEntries(entries, names[0], server), LookupTexts(entries, texts, names[0], server), names[1..], server)
  }

  /** The `forEach` of `getProfessorNamesAndFetchReviews` that reads every
      link's text and collects the names to look up. */
  method CollectNames(elements: array<string>) returns (names: seq<string>)
    ensures names == ScannedNames(elements[..])
  {
    names := [];
    for i := 0 to elements.Length
      invariant names == ScannedNames(elements[..i])
    {
      ScannedNamesSnoc(elements[..], i);
      assert elements[..][..i] == elements[..i];
      names := names + NameOf(elements[i]);
    }
    assert elements[..elements.Length] == elements[..];
  }

  /** The lookups of one scan, run one after another. */
  method LookupAll(store: Store, elements: array<string>, names: seq<string>, server: Server)
    modifies store, elements
    ensures Snapshot(store.entries, elements[..]) ==
      RunLookups(old(store.entries), old(elements[..]), names, server)
  {
    var j := 0;
    while j < |names|
      invariant 0 <= j <= |names|
      invariant RunLookups(store.entries, elements[..], names[j..], server) ==
        RunLookups(old(store.entries), old(elements[..]), names, server)
    {
      assert names[j..][1..] == names[j + 1..];
      var _ := FetchProfessorReviews(store, elements, names[j], server);
      j := j + 1;
    }
  }

  /** `getProfessorNamesAndFetchReviews`: the names are read from the page
      first (the `forEach` finishes before any storage callback runs), then
      each is looked up. */
  method GetProfessorNamesAndFetchReviews(store: Store, elements: array<string>, server: Server)
    modifies store, elements
    ensures Snapshot(store.entries, elements[..]) ==
      RunLookups(old(store.entries), old(elements[..]), ScannedNames(old(elements[..])), server)
  {
    var names := CollectNames(elements);
    LookupAll(store, elements, names, server);
  }

  /** A scan keeps every stored entry's `reviews` array. */
  lemma {:induction false} RunLookupsKeepsWellFormed(entries: map<string, Entry>, texts: seq<string>, names: seq<string>, server: Server)
    requires WellFormed(entries)
    ensures WellFormed(RunLookups(entries, texts, names, server).entries)
    decreases |names|
  {
    if names != [] {
      LookupKeepsWellFormed(entries, names[0], server);
      RunLookupsKeepsWellFormed(LookupEntries(entries, names[0], server),
                                LookupTexts(entries, texts, names[0], server), names[1..], server);
    }
  }

  /** A scan never drops a stored key: entries never expire. */
  lemma {:induction false} RunLookupsKeepsKeys(entries: map<string, Entry>, texts: seq<string>, names: seq<string>, server: Server)
    ensures entries.Keys <= RunLookups(entries, texts, names, server).entries.Keys
    decreases |names|
  {
    if names != [] {
      LookupFrame(entries, names[0], server);
      RunLookupsKeepsKeys(LookupEntries(entries, names[0], server),
                          LookupTexts(entries, texts, names[0], server), names[1..], server);
    }
  }
}
