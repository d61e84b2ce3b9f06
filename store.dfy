/** The record operations of the server (api/surveys.php and the handlers of
    api/responses.php). The two JSON files become the two sequences of a
    `Store`; each handler reads them, checks its request and, when it
    succeeds, writes them back. A handler that fails changes nothing. */
module Api {
  import opened Options
  import opened Seqs
  import opened Answers
  import opened Surveys
  import opened ResponseValidation
  import opened SurveyValidation

  /** Why a request was refused. */
  datatype ApiError =
    | InvalidJson
    | IdRequired
    | SurveyRejected(surveyErrors: seq<SurveyError>)
    | RequestRejected(requestErrors: seq<RequestError>)
    | AnswersRejected(answerErrors: seq<ResponseError>)
    | SurveyNotFound
    | SurveyNotPublished
    | ResponseNotFound

  /** The HTTP status sent with each refusal: 404 for an unknown record, 403
      for an unpublished survey, 400 (sendError's default) otherwise. */
  function StatusOf(e: ApiError): (code: nat)
    ensures code == 404 <==> e.SurveyNotFound? || e.ResponseNotFound?
    ensures code == 403 <==> e.SurveyNotPublished?
    ensures code == 400 || code == 403 || code == 404
  {
    match e
    case SurveyNotFound => 404
    case ResponseNotFound => 404
    case SurveyNotPublished => 403
    case _ => 400
  }

  /** What a handler sends back: a body with a success status, or an error. */
  datatype Reply<T> = Ok(status: nat, body: T) | Err(error: ApiError) {
    function Status(): nat {
      match this
      case Ok(status, _) => status
      case Err(error) => StatusOf(error)
    }
  }

  function SurveyHasId(id: int): Survey -> bool {
    (s: Survey) => s.id == id
  }

  function ResponseHasId(id: int): ResponseRecord -> bool {
    (r: ResponseRecord) => r.id == id
  }

  function IsPublished(s: Survey): bool {
    s.published
  }

  /** The key a response is counted under per survey. */
  function SurveyKey(r: ResponseRecord): int {
    r.surveyId
  }

  /** The key a response is counted under per day: the calendar date of
      its submission time, as the caller's date formatter computes it. */
  function DayKey(dayOf: string -> string): ResponseRecord -> string {
    (r: ResponseRecord) => dayOf(r.submittedAt)
  }

  function BelongsTo(surveyId: int): ResponseRecord -> bool {
    HasKey(SurveyKey, surveyId)
  }

  function NotOf(surveyId: int): ResponseRecord -> bool {
    (r: ResponseRecord) => r.surveyId != surveyId
  }

  /** The record built by the create handler from a validated document.
      `published` defaults to false, and the public URL is set only for a
      published survey. */
  function NewSurvey(input: SurveyInput, id: int, now: string, url: string): (s: Survey)
    ensures s.id == id && s.createdAt == now && s.updatedAt == now
    ensures s.published == (input.published == Some(true))
    ensures s.publicUrl.Some? <==> s.published
    ensures s.publicUrl.Some? ==> s.publicUrl.value == url
  {
    var published := input.published.GetOr(false);
    Survey(id, input.title.GetOr(""), input.questions.GetOr([]), published,
           if published then Some(url) else None, now, now)
  }

  /** The record that the update handler stores in place of `existing`: id
      and creation time come from the stored record, never from the input;
      `published` falls back to the stored value when the input omits it;
      the stored public URL is kept, and a URL is generated only when the
      survey ends up published without one. */
  function MergeSurvey(existing: Survey, input: SurveyInput, now: string, url: string): (s: Survey)
    ensures s.id == existing.id && s.createdAt == existing.createdAt && s.updatedAt == now
    ensures s.title == input.title.GetOr("") && s.questions == input.questions.GetOr([])
    ensures s.published == input.published.GetOr(existing.published)
    ensures !PhpEmptyField(existing.publicUrl) ==> s.publicUrl == existing.publicUrl
    ensures !s.published ==> s.publicUrl == existing.publicUrl
    ensures s.published && PhpEmptyField(existing.publicUrl) ==> s.publicUrl == Some(url)
  {
    var published := input.published.GetOr(existing.published);
    var keptUrl := existing.publicUrl;
    Survey(existing.id, input.title.GetOr(""), input.questions.GetOr([]), published,
           if published && PhpEmptyField(keptUrl) then Some(url) else keptUrl,
           existing.createdAt, now)
  }

  /** A stored record read back as an authoring document. */
  function AsInput(s: Survey): SurveyInput {
    SurveyInput(Some(s.id), Some(s.title), Some(s.questions), Some(s.published))
  }

  /** The checks of the response create handler, in the order it makes
      them: the JSON body, the request shape, the survey's existence, its
      publication, and finally the answers. On success, the survey the
      response is for. */
  function AdmitResponse(surveys: seq<Survey>, request: Option<ResponseRequest>): (r: Result<Survey, ApiError>)
    ensures request.None? <==> r == Failure(InvalidJson)
    ensures request.Some? && ValidateResponse(request.value) != [] ==>
              r == Failure(RequestRejected(ValidateResponse(request.value)))
    ensures r.Failure? && r.error.AnswersRejected? ==> r.error.answerErrors != []
    ensures r.Success? ==> r.value in surveys && r.value.published && r.value.id == request.value.surveyId.value
  {
    match request
    case None => Failure(InvalidJson)
    case Some(req) =>
      if ValidateResponse(req) != [] then Failure(RequestRejected(ValidateResponse(req)))
      else match FindFirst(surveys, SurveyHasId(req.surveyId.value))
        case None => Failure(SurveyNotFound)
        case Some(i) =>
          if !surveys[i].published then Failure(SurveyNotPublished)
          else if ResponseErrors(surveys[i].questions, req.answers.value) != []
          then Failure(AnswersRejected(ResponseErrors(surveys[i].questions, req.answers.value)))
          else Success(surveys[i])
  }

  /** An admitted response targets a stored survey that carries its id, is
      published, and accepts its answers. */
  lemma AdmittedMeansPublishedAndValid(surveys: seq<Survey>, request: Option<ResponseRequest>)
    requires AdmitResponse(surveys, request).Success?
    ensures var survey := AdmitResponse(surveys, request).value;
            request.Some? && request.value.surveyId.Some? && request.value.answers.Some?
            && survey in surveys && survey.id == request.value.surveyId.value && survey.published
            && ResponseErrors(survey.questions, request.value.answers.value) == []
  {
  }

  /** The checks run in a fixed order. A well-shaped request for a survey
      id that no stored survey carries is refused with 404. */
  lemma MissingSurveyRefused(surveys: seq<Survey>, req: ResponseRequest)
    requires req.surveyId.Some? && req.answers.Some?
    requires forall j :: 0 <= j < |surveys| ==> surveys[j].id != req.surveyId.value
    ensures AdmitResponse(surveys, Some(req)) == Failure(SurveyNotFound)
  {
  }

  /** When the first survey with the requested id is unpublished, the
      request is refused with 403, whatever the answers say. */
  lemma UnpublishedSurveyRefused(surveys: seq<Survey>, req: ResponseRequest, i: nat)
    requires req.surveyId.Some? && req.answers.Some?
    requires i < |surveys| && surveys[i].id == req.surveyId.value && !surveys[i].published
    requires forall j :: 0 <= j < i ==> surveys[j].id != req.surveyId.value
    ensures AdmitResponse(surveys, Some(req)) == Failure(SurveyNotPublished)
  {
    assert FindFirst(surveys, SurveyHasId(req.surveyId.value)) == Some(i);
  }

  /** The two JSON files, as sequences of records. */
  class Store {
    var surveys: seq<Survey>
    var responses: seq<ResponseRecord>

    constructor (surveys0: seq<Survey>, responses0: seq<ResponseRecord>)
      ensures surveys == surveys0 && responses == responses0
    {
      surveys := surveys0;
      responses := responses0;
    }

    /** Every stored survey passes the structural validator. */
    predicate SurveysValid()
      reads this
    {
      forall i :: 0 <= i < |surveys| ==> SurveyWellFormed(AsInput(surveys[i]))
    }

    /** GET with an id: the first survey with that id, or 404. */
    function GetSurvey(id: int): (r: Reply<Survey>)
      reads this
      ensures r.Ok? <==> exists i :: 0 <= i < |surveys| && surveys[i].id == id
      ensures r.Ok? ==> r.status == 200 && r.body in surveys && r.body.id == id
      ensures r.Ok? ==> exists i :: 0 <= i < |surveys| && surveys[i] == r.body
                                  && forall j :: 0 <= j < i ==> surveys[j].id != id
      ensures r.Err? ==> r.error == SurveyNotFound
    {
      match FindFirst(surveys, SurveyHasId(id))
      case None => Err(SurveyNotFound)
      case Some(i) => Ok(200, surveys[i])
    }

    /** GET without an id: every survey, or with `published=true` exactly
        the published ones, in stored order. */
    function ListSurveys(publishedOnly: bool): (r: seq<Survey>)
      reads this
      ensures !publishedOnly ==> r == surveys
      ensures |r| <= |surveys|
      ensures forall x :: x in r <==> x in surveys && (!publishedOnly || x.published)
    {
      if publishedOnly then
        var kept := Filter(surveys, IsPublished);
        assert forall x :: x in kept <==> x in surveys && IsPublished(x) by {
          forall x ensures x in kept <==> x in surveys && IsPublished(x) {
            FilterMembership(surveys, IsPublished, x);
          }
        }
        kept
      else surveys
    }

    /** The position of the first survey with id `id`, found by a forward
        scan that stops at the first match. */
    method FindSurvey(id: int) returns (index: Option<nat>)
      ensures index == FindFirst(surveys, SurveyHasId(id))
    {
      var i := 0;
      while i < |surveys|
        invariant 0 <= i <= |surveys|
        invariant forall j :: 0 <= j < i ==> surveys[j].id != id
      {
        if surveys[i].id == id {
          return Some(i);
        }
        i := i + 1;
      }
      return None;
    }

    /** POST: validate, then append one new record. */
    method CreateSurvey(input: Option<SurveyInput>, newId: int, now: string, url: string)
      returns (reply: Reply<Survey>)
      modifies this
      ensures responses == old(responses)
      ensures reply.Ok? <==> input.Some? && SurveyErrors(input.value) == []
      ensures input.None? ==> reply == Err(InvalidJson)
      ensures input.Some? && SurveyErrors(input.value) != [] ==> reply == Err(SurveyRejected(SurveyErrors(input.value)))
      ensures reply.Err? ==> surveys == old(surveys)
      ensures reply.Ok? ==> reply.status == 201 && reply.body == NewSurvey(input.value, newId, now, url)
                            && surveys == old(surveys) + [reply.body]
      ensures old(SurveysValid()) ==> SurveysValid()
    {
      if input.None? {
        return Err(InvalidJson);
      }
      var errors := ValidateSurvey(input.value);
      if errors != [] {
        return Err(SurveyRejected(errors));
      }
      var survey := NewSurvey(input.value, newId, now, url);
      ValidIffWellFormed(input.value);
      assert SurveyWellFormed(AsInput(survey));
      surveys := surveys + [survey];
      reply := Ok(201, survey);
    }

    /** PUT: validate, then replace the first record with the input's id,
        in place. */
    method UpdateSurvey(input: Option<SurveyInput>, now: string, url: string)
      returns (reply: Reply<Survey>)
      modifies this
      ensures responses == old(responses)
      ensures input.None? || input.value.id.None? ==> reply == Err(IdRequired)
      ensures input.Some? && input.value.id.Some? && SurveyErrors(input.value) != [] ==>
                reply == Err(SurveyRejected(SurveyErrors(input.value)))
      ensures input.Some? && input.value.id.Some? && SurveyErrors(input.value) == []
              && FindFirst(old(surveys), SurveyHasId(input.value.id.value)).None? ==>
                reply == Err(SurveyNotFound)
      ensures reply.Err? ==> surveys == old(surveys)
      ensures reply.Ok? <==>
        input.Some? && input.value.id.Some? && SurveyErrors(input.value) == []
        && FindFirst(old(surveys), SurveyHasId(input.value.id.value)).Some?
      ensures reply.Ok? ==>
        var i := FindFirst(old(surveys), SurveyHasId(input.value.id.value)).value;
        reply.status == 200 && reply.body == MergeSurvey(old(surveys)[i], input.value, now, url)
        && surveys == old(surveys)[i := reply.body]
      ensures old(SurveysValid()) ==> SurveysValid()
    {
      if input.None? || input.value.id.None? {
        return Err(IdRequired);
      }
      var errors := ValidateSurvey(input.value);
      if errors != [] {
        return Err(SurveyRejected(errors));
      }
      var found := FindSurvey(input.value.id.value);
      if found.None? {
        return Err(SurveyNotFound);
      }
      var i := found.value;
      var updated := MergeSurvey(surveys[i], input.value, now, url);
      ValidIffWellFormed(input.value);
      assert SurveyWellFormed(AsInput(updated));
      surveys := surveys[i := updated];
      reply := Ok(200, updated);
    }

    /** DELETE: splice out the first record with the id, then drop every
        response given to that survey. */
    method DeleteSurvey(id: Option<int>) returns (reply: Reply<()>)
      modifies this
      ensures id.None? ==> reply == Err(IdRequired)
      ensures id.Some? && FindFirst(old(surveys), SurveyHasId(id.value)).None? ==> reply == Err(SurveyNotFound)
      ensures reply.Ok? <==> id.Some? && FindFirst(old(surveys), SurveyHasId(id.value)).Some?
      ensures reply.Err? ==> surveys == old(surveys) && responses == old(responses)
      ensures reply.Ok? ==>
        var i := FindFirst(old(surveys), SurveyHasId(id.value)).value;
        reply.status == 200
        && surveys == RemoveAt(old(surveys), i)
        && responses == Filter(old(responses), NotOf(id.value))
      ensures old(SurveysValid()) ==> SurveysValid()
    {
      if id.None? {
        return Err(IdRequired);
      }
      var found := FindSurvey(id.value);
      if found.None? {
        return Err(SurveyNotFound);
      }
      surveys := RemoveAt(surveys, found.value);
      responses := Filter(responses, NotOf(id.value));
      reply := Ok(200, ());
    }

    /** GET on responses: all of them, or those of one survey, in stored
        order. */
    function ResponsesOf(surveyId: Option<int>): (r: seq<ResponseRecord>)
      reads this
      ensures surveyId.None? ==> r == responses
      ensures surveyId.Some? ==> forall x :: x in r <==> x in responses && x.surveyId == surveyId.value
    {
      match surveyId
      case None => responses
      case Some(id) =>
        var kept := Filter(responses, BelongsTo(id));
        assert forall x :: x in kept <==> x in responses && x.surveyId == id by {
          forall x ensures x in kept <==> x in responses && x.surveyId == id {
            FilterMembership(responses, BelongsTo(id), x);
            assert HasKey(SurveyKey, id)(x) == (SurveyKey(x) == id);
          }
        }
        kept
    }

    /** POST on responses: the admission checks, then append one record.
        The client address defaults to "unknown". */
    method CreateResponse(request: Option<ResponseRequest>, newId: int, now: string, ip: Option<string>)
      returns (reply: Reply<ResponseRecord>)
      modifies this
      ensures surveys == old(surveys)
      ensures AdmitResponse(old(surveys), request).Failure? ==>
                reply == Err(AdmitResponse(old(surveys), request).error) && responses == old(responses)
      ensures AdmitResponse(old(surveys), request).Success? ==>
                var survey := AdmitResponse(old(surveys), request).value;
                reply == Ok(201, ResponseRecord(newId, request.value.surveyId.value, survey.title,
                                                request.value.answers.value, now, ip.GetOr("unknown")))
                && responses == old(responses) + [reply.body]
    {
      if request.None? {
        return Err(InvalidJson);
      }
      var req := request.value;
      var shapeErrors := ValidateResponse(req);
      if shapeErrors != [] {
        return Err(RequestRejected(shapeErrors));
      }
      var found := FindSurvey(req.surveyId.value);
      if found.None? {
        return Err(SurveyNotFound);
      }
      var survey := surveys[found.value];
      if !survey.published {
        return Err(SurveyNotPublished);
      }
      var answerErrors := ValidateAnswers(req.answers.value, survey);
      if answerErrors != [] {
        return Err(AnswersRejected(answerErrors));
      }
      var record := ResponseRecord(newId, req.surveyId.value, survey.title, req.answers.value, now, ip.GetOr("unknown"));
      responses := responses + [record];
      reply := Ok(201, record);
    }

    /** DELETE on responses: splice out the first record with the id. */
    method DeleteResponse(id: Option<int>) returns (reply: Reply<()>)
      modifies this
      ensures surveys == old(surveys)
      ensures id.None? ==> reply == Err(IdRequired)
      ensures reply.Ok? <==> id.Some? && FindFirst(old(responses), ResponseHasId(id.value)).Some?
      ensures reply.Err? ==> responses == old(responses)
      ensures reply.Err? && id.Some? ==> reply.error == ResponseNotFound
      ensures reply.Ok? ==>
        reply.status == 200
        && responses == RemoveAt(old(responses), FindFirst(old(responses), ResponseHasId(id.value)).value)
    {
      if id.None? {
        return Err(IdRequired);
      }
      var i := 0;
      while i < |responses|
        invariant 0 <= i <= |responses|
        invariant forall j :: 0 <= j < i ==> responses[j].id != id.value
      {
        if responses[i].id == id.value {
          responses := RemoveAt(responses, i);
          return Ok(200, ());
        }
        i := i + 1;
      }
      return Err(ResponseNotFound);
    }
  }

  /** Sending the same update twice stores the same record as sending it
      once: the second merge keeps the id, the creation time and the URL the
      first one settled. */
  lemma MergeIdempotent(existing: Survey, input: SurveyInput, now: string, url: string)
    ensures MergeSurvey(MergeSurvey(existing, input, now, url), input, now, url)
            == MergeSurvey(existing, input, now, url)
  {
  }

  /** The merged record keeps the stored id, so after an update a GET or a
      later update with that id finds the updated record, at the same
      position. */
  lemma UpdatedSurveyFoundInPlace(surveys: seq<Survey>, input: SurveyInput, now: string, url: string, id: int)
    requires FindFirst(surveys, SurveyHasId(id)).Some?
    ensures var i := FindFirst(surveys, SurveyHasId(id)).value;
            FindFirst(surveys[i := MergeSurvey(surveys[i], input, now, url)], SurveyHasId(id)) == Some(i)
  {
    var i := FindFirst(surveys, SurveyHasId(id)).value;
    var updated := surveys[i := MergeSurvey(surveys[i], input, now, url)];
    FindFirstIs(updated, SurveyHasId(id), i);
  }

  /** The cascade of a survey delete: no remaining response belongs to the
      deleted survey, and every response of another survey stays, in
      order. */
  lemma CascadeRemovesExactlyThatSurvey(responses: seq<ResponseRecord>, id: int)
    ensures forall x :: x in Filter(responses, NotOf(id)) <==> x in responses && x.surveyId != id
    ensures Filter(responses, NotOf(id)) == responses <==> forall k :: 0 <= k < |responses| ==> responses[k].surveyId != id
  {
    forall x ensures x in Filter(responses, NotOf(id)) <==> x in responses && x.surveyId != id {
      FilterMembership(responses, NotOf(id), x);
    }
    FilterKeepsAll(responses, NotOf(id));
  }

  /** Deleting the first record with an id removes exactly one record: the
      others keep their order, and a later record with the same id stays. */
  lemma DeleteRemovesOne<T>(s: seq<T>, i: nat)
    requires i < |s|
    ensures multiset(RemoveAt(s, i)) + multiset{s[i]} == multiset(s)
  {
    assert s == s[..i] + [s[i]] + s[i + 1..];
    assert multiset(s) == multiset(s[..i]) + multiset{s[i]} + multiset(s[i + 1..]);
  }

  /** The statistics reply of GET with `stats=true`. */
  datatype Stats = Stats(totalResponses: nat, perSurvey: map<int, nat>, byDate: map<string, nat>)

  /** generateResponseStats: the total, then one pass counting responses per
      survey id and one pass counting them per submission date. A key is
      present only once some response carries it. */
  method ResponseStats(rs: seq<ResponseRecord>, dayOf: string -> string) returns (stats: Stats)
    ensures stats.totalResponses == |rs|
    ensures forall id :: id in stats.perSurvey <==> Tally(rs, SurveyKey, id) > 0
    ensures forall id :: id in stats.perSurvey ==> stats.perSurvey[id] == Tally(rs, SurveyKey, id)
    ensures forall d :: d in stats.byDate <==> Tally(rs, DayKey(dayOf), d) > 0
    ensures forall d :: d in stats.byDate ==> stats.byDate[d] == Tally(rs, DayKey(dayOf), d)
  {
    var perSurvey: map<int, nat> := map[];
    var i := 0;
    while i < |rs|
      invariant 0 <= i <= |rs|
      invariant forall id :: id in perSurvey <==> Tally(rs[..i], SurveyKey, id) > 0
      invariant forall id :: id in perSurvey ==> perSurvey[id] == Tally(rs[..i], SurveyKey, id)
    {
      var id := rs[i].surveyId;
      if id !in perSurvey {
        perSurvey := perSurvey[id := 0];
      }
      perSurvey := perSurvey[id := perSurvey[id] + 1];
      forall k ensures Tally(rs[..i + 1], SurveyKey, k)
                       == Tally(rs[..i], SurveyKey, k) + (if SurveyKey(rs[i]) == k then 1 else 0) {
        TallyStep(rs, SurveyKey, i, k);
      }
      i := i + 1;
    }
    var byDate: map<string, nat> := map[];
    i := 0;
    while i < |rs|
      invariant 0 <= i <= |rs|
      invariant forall d :: d in byDate <==> Tally(rs[..i], DayKey(dayOf), d) > 0
      invariant forall d :: d in byDate ==> byDate[d] == Tally(rs[..i], DayKey(dayOf), d)
    {
      var date := dayOf(rs[i].submittedAt);
      if date !in byDate {
        byDate := byDate[date := 0];
      }
      byDate := byDate[date := byDate[date] + 1];
      forall d ensures Tally(rs[..i + 1], DayKey(dayOf), d)
                       == Tally(rs[..i], DayKey(dayOf), d) + (if DayKey(dayOf)(rs[i]) == d then 1 else 0) {
        TallyStep(rs, DayKey(dayOf), i, d);
      }
      i := i + 1;
    }
    assert rs[..|rs|] == rs;
    stats := Stats(|rs|, perSurvey, byDate);
  }

  /** The per-survey count is the number of responses that GET with that
      survey id lists, and a survey id is counted exactly when one of its
      responses is stored. */
  lemma PerSurveyCountMatchesListing(rs: seq<ResponseRecord>, id: int)
    ensures Tally(rs, SurveyKey, id) == |Filter(rs, BelongsTo(id))|
    ensures Tally(rs, SurveyKey, id) > 0 <==> exists k :: 0 <= k < |rs| && rs[k].surveyId == id
  {
    TallyIsFilterLength(rs, SurveyKey, id);
    TallyPositive(rs, SurveyKey, id);
  }
}
