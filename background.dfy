/** The service-worker side: resolving a name to an identifier, fetching and
    validating that identifier's reviews, the export file name, and the
    `fetchReviews` message handler that ends in one storage write. */
module Background {
  import opened Wrappers
  import opened Strings
  import opened Ratings
  import opened Cache

  /** The JSON value found at `professorResults[0].id`. */
  datatype IdValue = IdUndefined | IdNull | IdNumber(n: int) | IdString(s: string)

  /** JavaScript truthiness of an identifier value. */
  predicate Truthy(id: IdValue)
  {
    match id
    case IdNumber(n) => n != 0
    case IdString(s) => s != ""
    case _ => false
  }

  datatype Hit = Hit(id: IdValue)

  /** The body of the search reply: not JSON, or JSON whose `professorResults`
      is absent/null or a list of hits. */
  datatype SearchBody = SearchNotJson | SearchJson(professorResults: Option<seq<Hit>>)

  /** What `fetch(searchUrl)` yields: a thrown network error, or a response
      with its `ok` flag and body. */
  datatype SearchReply = SearchThrew | SearchResponse(ok: bool, body: SearchBody)

  /** The body of the reviews reply: not JSON, or a JSON payload. A payload
      whose `reviews` is absent or not an array has `reviews == None`. */
  datatype ReviewsBody = ReviewsNotJson | ReviewsJson(payload: Entry)

  datatype ReviewsReply = ReviewsThrew | ReviewsResponse(ok: bool, body: ReviewsBody)

  /** The review service, as an oracle: the reply to a search for a given
      query string, and the reply for a given identifier. URL encoding is
      injective, so a query is identified by the name it encodes. */
  datatype Server = Server(search: string -> SearchReply, reviewsOf: IdValue -> ReviewsReply)

  /** `getProfessorId`: the first hit's `id` when the reply is OK, parses
      and lists at least one hit; `null` (None) on a thrown fetch, a non-OK
      status, a body that does not parse, or an absent or empty list. */
  function GetProfessorId(reply: SearchReply): (id: Option<IdValue>)
    ensures id.Some? <==>
      && reply.SearchResponse? && reply.ok
      && reply.body.SearchJson? && reply.body.professorResults.Some?
      && |reply.body.professorResults.value| > 0
    ensures id.Some? ==> id.value == reply.body.professorResults.value[0].id
  {
    match reply
    case SearchThrew => None
    case SearchResponse(ok, body) =>
      if !ok then None
      else match body
        case SearchNotJson => None
        case SearchJson(results) =>
          if results.Some? && |results.value| > 0 then Some(results.value[0].id) else None
  }

  /** `getProfessorReviewsById`: the whole payload exactly when it parses and
      its `reviews` is a non-empty array, `null` (None) otherwise. The reply's
      status does not occur in the condition. */
  function GetProfessorReviewsById(reply: ReviewsReply): (p: Option<Entry>)
    ensures p.Some? <==>
      && reply.ReviewsResponse? && reply.body.ReviewsJson?
      && reply.body.payload.reviews.Some? && |reply.body.payload.reviews.value| > 0
    ensures p.Some? ==> p.value == reply.body.payload
  {
    match reply
    case ReviewsThrew => None
    case ReviewsResponse(_, body) =>
      match body
      case ReviewsNotJson => None
      case ReviewsJson(payload) =>
        if payload.reviews.Some? && |payload.reviews.value| > 0 then Some(payload) else None
  }

  /** `storeReviewsAsJson`'s file name: the last space-separated word, a
      comma, the other words joined by spaces, and `.json`. */
  function StoreFileName(professorName: string): string
  {
    var parts := Split(professorName, ' ');
    parts[|parts| - 1] + ", " + Join(parts[..|parts| - 1], " ") + ".json"
  }

  /** A name whose last word is `last` is filed as `last, <the rest>.json`. */
  lemma FileNameOfFullName(first: string, last: string)
    requires ' ' !in last
    ensures StoreFileName(first + " " + last) == last + ", " + first + ".json"
  {
    SplitAtLast(first, last, ' ');
    SplitJoin(first, ' ');
    assert " " == [' '];
    var parts := Split(first + " " + last, ' ');
    assert parts[..|parts| - 1] == Split(first, ' ');
  }

  /** A name without a space becomes `name, .json`. */
  lemma FileNameOfOneWord(word: string)
    requires ' ' !in word
    ensures StoreFileName(word) == word + ", .json"
  {
    SplitNoSeparator(word, ' ');
  }

  lemma FileNameExample()
    ensures StoreFileName("Jane Doe") == "Doe, Jane.json"
  {
    var first, last := "Jane", "Doe";
    assert ' ' !in last;
    FileNameOfFullName(first, last);
    assert first + " " + last == "Jane Doe";
    assert last + ", " + first + ".json" == "Doe, Jane.json";
  }

  /** `professorName.split(",").reverse().join(", ")`, the key under which
      the handler stores reviews (no trim). */
  function ProfessorKey(professorName: string): string
  {
    Join(Reverse(Split(professorName, ',')), ", ")
  }

  /** On a comma-free name the key is the name itself. */
  lemma ProfessorKeyCommaFree(name: string)
    requires ',' !in name
    ensures ProfessorKey(name) == name
  {
    SplitNoSeparator(name, ',');
  }

  /** On `"A,B"` the key is `"B, A"`. */
  lemma ProfessorKeyTwoParts(a: string, b: string)
    requires ',' !in a && ',' !in b
    ensures ProfessorKey(a + "," + b) == b + ", " + a
  {
    SplitAtFirst(a, b, ',');
    SplitNoSeparator(b, ',');
    assert "," == [','];
    assert Split(a + "," + b, ',') == [a, b];
    assert Reverse([a, b]) == [b, a];
    assert Join([b, a], ", ") == b + ", " + Join([a], ", ") by {
      assert [b, a][1..] == [a];
    }
  }

  /** On `"A,B,C"` the key is `"C, B, A"`. */
  lemma ProfessorKeyThreeParts(a: string, b: string, c: string)
    requires ',' !in a && ',' !in b && ',' !in c
    ensures ProfessorKey(a + "," + b + "," + c) == c + ", " + b + ", " + a
  {
    assert "," == [','];
    SplitThree(a, b, c, ',');
    assert Reverse([a, b, c]) == [c, b, a];
    JoinThree(c, b, a, ", ");
  }

  /** The key has as many commas as the name. */
  lemma ProfessorKeyCommaCount(name: string)
    ensures Count(ProfessorKey(name), ',') == Count(name, ',')
  {
    var parts := Reverse(Split(name, ','));
    JoinCount(parts, ", ", ',');
    assert Count(", ", ',') == 1 by {
      assert ", "[1..] == " ";
      assert " "[1..] == [];
    }
  }

  datatype Message = Message(action: string, professorName: Option<string>)

  /** `{ success: true, message }` or `{ error }`. */
  datatype Response = Saved(message: string) | Failed(error: string)

  const FetchAction := "fetchReviews"
  const IdNotFound := "Professor ID not found"
  const NoReviewsFound := "No reviews found for professor"
  const FetchFailed := "An error occurred while fetching reviews"

  /** The argument handed to `encodeURIComponent`: a missing name is
      converted to the string "undefined". */
  function SearchQuery(professorName: Option<string>): string
  {
    match professorName
    case Some(name) => name
    case None => "undefined"
  }

  /** What the handler learns from the search step. */
  function ResolveId(msg: Message, server: Server): Option<IdValue>
  {
    GetProfessorId(server.search(SearchQuery(msg.professorName)))
  }

  /** `if (professorId)`: an identifier was returned and it is truthy. */
  predicate IdFound(id: Option<IdValue>)
  {
    id.Some? && Truthy(id.value)
  }

  /** The listener's outcome: the response it sends (None when it does not
      answer) and the storage write it makes. */
  datatype Handled = Handled(response: Option<Response>, write: Write)

  /** The `fetchReviews` listener as a value. It answers every `fetchReviews`
      message and no other; it writes exactly when it answers with success,
      which needs a name, a truthy identifier and a validated payload; the
      write is that payload, verbatim, under the name's key, so it always
      carries a non-empty `reviews` list; every other answer is one of the
      three error strings. */
  function HandleMessage(msg: Message, server: Server): (h: Handled)
    ensures h.response.Some? <==> msg.action == FetchAction
    ensures h.write.Some? <==> h.response.Some? && h.response.value.Saved?
    ensures h.write.Some? <==>
      && msg.action == FetchAction && msg.professorName.Some?
      && IdFound(ResolveId(msg, server))
      && GetProfessorReviewsById(server.reviewsOf(ResolveId(msg, server).value)).Some?
    ensures h.write.Some? ==>
      && h.write.value.0 == ProfessorKey(msg.professorName.value)
      && h.write.value.1 == GetProfessorReviewsById(server.reviewsOf(ResolveId(msg, server).value)).value
      && h.write.value.1.reviews.Some? && |h.write.value.1.reviews.value| > 0
    ensures h.response.Some? && h.response.value.Failed? ==>
      h.response.value.error in {IdNotFound, NoReviewsFound, FetchFailed}
  {
    if msg.action != FetchAction then Handled(None, None)
    else
      var id := ResolveId(msg, server);
      if !IdFound(id) then Handled(Some(Failed(IdNotFound)), None)
      else
        var payload := GetProfessorReviewsById(server.reviewsOf(id.value));
        if payload.None? then Handled(Some(Failed(NoReviewsFound)), None)
        else
          match msg.professorName
          // `undefined.split(",")` throws, and the catch block answers
          case None => Handled(Some(Failed(FetchFailed)), None)
          case Some(name) =>
            Handled(Some(Saved("Reviews saved for " + name)), Some((ProfessorKey(name), payload.value)))
  }

  /** The listener run against the store: it answers as `HandleMessage`
      says and the store changes by that one write and nothing else. */
  method OnMessage(store: Store, msg: Message, server: Server) returns (response: Option<Response>)
    modifies store
    ensures response == HandleMessage(msg, server).response
    ensures store.entries == ApplyWrite(old(store.entries), HandleMessage(msg, server).write)
  {
    if msg.action != FetchAction {
      return None;
    }
    var id := GetProfessorId(server.search(SearchQuery(msg.professorName)));
    if !(id.Some? && Truthy(id.value)) {
      return Some(Failed(IdNotFound));
    }
    var payload := GetProfessorReviewsById(server.reviewsOf(id.value));
    if payload.None? {
      return Some(Failed(NoReviewsFound));
    }
    match msg.professorName {
      case None =>
        response := Some(Failed(FetchFailed));
      case Some(name) =>
        store.Set(ProfessorKey(name), payload.value);
        response := Some(Saved("Reviews saved for " + name));
    }
  }

  /** Anything the handler leaves in a well-formed store keeps it well formed. */
  lemma HandleKeepsWellFormed(m: map<string, Entry>, msg: Message, server: Server)
    requires WellFormed(m)
    ensures WellFormed(ApplyWrite(m, HandleMessage(msg, server).write))
  {
  }
}
