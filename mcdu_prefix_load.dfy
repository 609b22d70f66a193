/** The mcdu-prefix load with history (`Load.execute`): every request is
    validated; every valid one is looked up by its key, saved as a new or an
    updated mcdu-prefix record, and recorded in the history as CREATED or
    UPDATED; the whole batch answers SUCCESS with one response per request. */
module McduPrefixLoad {
  import opened Domain
  import opened Repository

  /** `McduPrefixValidate.validateLoad`; it is not part of the model, so the
      load takes it as a parameter. */
  type Validate = McduPrefixRequest -> McduPrefixResponse

  /** `createMcduPrefix(payload, id, registrationDate, updateDate,
      finalOperatorDate, dateRequestOpeningForwarding)`: the payload's fields with
      the given id and dates. */
  function CreateMcduPrefix(payload: McduPrefixRequest, id: Option<string>, registrationDate: Option<Date>,
                            updateDate: Option<Date>, finalOperatorDate: Option<Date>,
                            dateRequestOpeningForwarding: Option<Date>): McduPrefix
  {
    McduPrefix(id, payload.prefix, payload.cn, payload.initialMcdu, payload.finalMcdu, payload.cnl, payload.eot,
               payload.details, updateDate, registrationDate, finalOperatorDate, dateRequestOpeningForwarding)
  }

  /** `createHistoric(actual, before, type, operation)`: the history record with
      the after snapshot `actual`, the before snapshot `before`, the fields copied
      from `actual`, and the acting user. */
  function NewHistoric(actual: McduPrefix, before: Option<McduPrefix>, crudType: CrudType, operation: Operation,
                       user: string): McduPrefixHistoric
  {
    McduPrefixHistoric(actual.id, operation, crudType, actual.cn, actual.cnl, actual.prefix, actual.initialMcdu,
                       actual.finalMcdu, actual.eot, actual.details.audited, user, actual, before)
  }

  /** The record the lookup defaults to when no record has the key. */
  function DefaultMcduPrefix(payload: McduPrefixRequest, now: Date): McduPrefix
  {
    CreateMcduPrefix(payload, None, Some(now), None, None, None)
  }

  /** `createHistoric(payload, mcduPrefix)`: CREATED when `current` has no id,
      otherwise UPDATED with the id and registration date of `current` kept and
      `current` as the before snapshot. */
  function CreateHistoric(payload: McduPrefixRequest, current: McduPrefix, now: Date, user: string)
    : McduPrefixHistoric
  {
    if current.id.None? then
      NewHistoric(CreateMcduPrefix(payload, None, Some(now), None, None, None), None, Created,
                  McduPrefixLoadOperation, user)
    else
      NewHistoric(CreateMcduPrefix(payload, current.id, current.registrationDate, Some(now), None, None),
                  Some(current), Updated, McduPrefixLoadOperation, user)
  }

  /** `save(payload, historic)`: the after snapshot is saved, then the history
      record, and the answer is SUCCESS with the payload. */
  function SaveEffect(s: Snapshot, payload: McduPrefixRequest, h: McduPrefixHistoric): Effect<McduPrefixResponse>
  {
    var t := SaveMcduPrefixIn(s, h.actual);
    Effect(McduPrefixResponse(Success, Success, payload), t.(mcduHistory := t.mcduHistory + [h]),
           [McduPrefixSave(h.actual), McduHistoricSave(h)])
  }

  /** `execute(response)` for one validated request, where `found` is the answer
      of the key lookup. */
  function ExecuteItem(s: Snapshot, response: McduPrefixResponse, found: Option<McduPrefix>, now: Date,
                       user: string): Effect<McduPrefixResponse>
  {
    if response.code != Success then Effect(response, s, [])
    else
      var payload := response.mcduPrefix;
      var current := if found.Some? then found.value else DefaultMcduPrefix(payload, now);
      var e := SaveEffect(s, payload, CreateHistoric(payload, current, now, user));
      Effect(e.result, e.state, [McduKeyQuery(payload.Key())] + e.calls)
  }

  /** The answer for one validated request, which depends on the request alone. */
  function ItemResponse(response: McduPrefixResponse): McduPrefixResponse
  {
    if response.code != Success then response else McduPrefixResponse(Success, Success, response.mcduPrefix)
  }

  /** The responses of a batch, the repositories afterwards and all calls made. */
  datatype Processed = Processed(responses: seq<McduPrefixResponse>, state: Snapshot, calls: seq<Call>)

  /** `execute(responses)`, one validated request after the other in list
      order; `founds[i]` is the answer of the lookup for `items[i]`. */
  function ExecuteAll(s: Snapshot, items: seq<McduPrefixResponse>, founds: seq<Option<McduPrefix>>, now: Date,
                      user: string): (b: Processed)
    requires |founds| == |items|
    ensures |b.responses| == |items|
    decreases |items|
  {
    if items == [] then Processed([], s, [])
    else
      var n := |items| - 1;
      var prev := ExecuteAll(s, items[..n], founds[..n], now, user);
      var e := ExecuteItem(prev.state, items[n], founds[n], now, user);
      Processed(prev.responses + [e.result], e.state, prev.calls + e.calls)
  }

  /** Every lookup answer of the batch is one the lookup may give against the
      repositories as they are when it is made. */
  ghost predicate Answered(s: Snapshot, items: seq<McduPrefixResponse>, founds: seq<Option<McduPrefix>>, now: Date,
                           user: string)
    requires |founds| == |items|
    decreases |items|
  {
    items == [] ||
    var n := |items| - 1;
    Answered(s, items[..n], founds[..n], now, user) &&
    (items[n].code == Success ==>
       McduKeyAnswer(ExecuteAll(s, items[..n], founds[..n], now, user).state.mcduPrefixes,
                     items[n].mcduPrefix.Key(), founds[n]))
  }

  /** The validated requests: `validateLoad` applied to each request. */
  function ValidateAll(list: seq<McduPrefixRequest>, validate: Validate): seq<McduPrefixResponse>
  {
    seq(|list|, i requires 0 <= i < |list| => validate(list[i]))
  }

  /** The batch answer: always SUCCESS, carrying the item responses. */
  function BatchResponse(responses: seq<McduPrefixResponse>): DataResponse
  {
    DataResponse(Success, Success, Some(McduPrefixResponseList(responses)))
  }

  /** `execute(list)`: validate every request, execute the validated ones, answer. */
  function LoadEffect(s: Snapshot, list: seq<McduPrefixRequest>, validate: Validate,
                      founds: seq<Option<McduPrefix>>, now: Date, user: string): Effect<DataResponse>
    requires |founds| == |list|
  {
    var b := ExecuteAll(s, ValidateAll(list, validate), founds, now, user);
    Effect(BatchResponse(b.responses), b.state, b.calls)
  }

  /** No two records of the mcdu-prefix repository share a key. */
  ghost predicate KeysUnique(m: map<string, McduPrefix>)
  {
    forall a, b :: a in m && b in m && m[a].Key() == m[b].Key() ==> a == b
  }

  function CountValid(items: seq<McduPrefixResponse>): nat
  {
    if items == [] then 0
    else CountValid(items[..|items| - 1]) + (if items[|items| - 1].code == Success then 1 else 0)
  }

  // ---- one item ----

  /** A request whose validation code is not SUCCESS is answered unchanged, with
      no lookup and no save. */
  lemma InvalidItemPassesThrough(s: Snapshot, response: McduPrefixResponse, found: Option<McduPrefix>, now: Date,
                                 user: string)
    requires response.code != Success
    ensures var e := ExecuteItem(s, response, found, now, user);
      e.result == response && e.state == s && e.calls == []
  {
  }

  /** Every history record has operation MCDU_PREFIX_LOAD and the acting user,
      copies its id, cn, cnl, prefix, mcdus, eot and audited fields from its
      after snapshot, and that snapshot carries the payload's fields. */
  lemma HistoricCopiesActual(payload: McduPrefixRequest, current: McduPrefix, now: Date, user: string)
    ensures var h := CreateHistoric(payload, current, now, user);
      h.operation == McduPrefixLoadOperation && h.user == user && h.prefixId == h.actual.id &&
      h.cn == h.actual.cn && h.cnl == h.actual.cnl && h.prefix == h.actual.prefix &&
      h.initialMcdu == h.actual.initialMcdu && h.finalMcdu == h.actual.finalMcdu && h.eot == h.actual.eot &&
      h.audited == h.actual.details.audited &&
      h.actual.Key() == payload.Key() && h.actual.eot == payload.eot && h.actual.details == payload.details
  {
  }

  /** The item's effect once it is valid: the lookup, the save of the after
      snapshot, then the history append; the answer is SUCCESS with the payload. */
  lemma ValidItemSavesThenRecords(s: Snapshot, response: McduPrefixResponse, found: Option<McduPrefix>, now: Date,
                                  user: string)
    requires response.code == Success
    ensures var e := ExecuteItem(s, response, found, now, user);
      var payload := response.mcduPrefix;
      |e.state.mcduHistory| == |s.mcduHistory| + 1 &&
      var h := e.state.mcduHistory[|s.mcduHistory|];
      e.state.mcduHistory == s.mcduHistory + [h] &&
      e.calls == [McduKeyQuery(payload.Key()), McduPrefixSave(h.actual), McduHistoricSave(h)] &&
      e.state.mcduPrefixes == SaveMcduPrefixIn(s, h.actual).mcduPrefixes &&
      e.result == McduPrefixResponse(Success, Success, payload) &&
      e.state.resources == s.resources && e.state.donationHistory == s.donationHistory
  {
  }

  /** With no record of the key, the history record is CREATED, has no before
      snapshot, and its after snapshot is built without an id, with the clock
      value as registration date and no update date; the record is inserted
      under an id not used before. The saves do not write the new id back into
      the history record's snapshot. */
  lemma AbsentKeyCreates(s: Snapshot, response: McduPrefixResponse, found: Option<McduPrefix>, now: Date,
                         user: string)
    requires Consistent(s) && response.code == Success
    requires McduKeyAnswer(s.mcduPrefixes, response.mcduPrefix.Key(), found)
    requires !HasMcduKey(s.mcduPrefixes, response.mcduPrefix.Key())
    ensures var e := ExecuteItem(s, response, found, now, user);
      var h := e.state.mcduHistory[|e.state.mcduHistory| - 1];
      h.crudType == Created && h.before == None && h.actual.id == None && h.prefixId == None &&
      h.actual.registrationDate == Some(now) && h.actual.updateDate == None &&
      exists k :: k !in s.mcduPrefixes && e.state.mcduPrefixes == s.mcduPrefixes[k := h.actual.(id := Some(k))]
  {
    var e := ExecuteItem(s, response, found, now, user);
    var h := CreateHistoric(response.mcduPrefix, DefaultMcduPrefix(response.mcduPrefix, now), now, user);
    var u := Upsert(s.mcduPrefixes, s.nextId, h.actual.id, k => h.actual.(id := Some(k)));
    assert e.state.mcduPrefixes == u.table;
    assert u.table == s.mcduPrefixes[u.key := h.actual.(id := Some(u.key))];
  }

  /** With a record of the key, the history record is UPDATED, its before
      snapshot is that record, and its after snapshot keeps that record's id and
      registration date, has the clock value as update date and clears the final
      operator and forwarding dates; it replaces that record in place. */
  lemma PresentKeyUpdates(s: Snapshot, response: McduPrefixResponse, found: Option<McduPrefix>, now: Date,
                          user: string)
    requires Consistent(s) && response.code == Success
    requires McduKeyAnswer(s.mcduPrefixes, response.mcduPrefix.Key(), found)
    requires HasMcduKey(s.mcduPrefixes, response.mcduPrefix.Key())
    ensures var e := ExecuteItem(s, response, found, now, user);
      var h := e.state.mcduHistory[|e.state.mcduHistory| - 1];
      var current := found.value;
      h.crudType == Updated && h.before == Some(current) && h.actual.id == current.id &&
      h.actual.registrationDate == current.registrationDate && h.actual.updateDate == Some(now) &&
      h.actual.finalOperatorDate == None && h.actual.dateRequestOpeningForwarding == None &&
      e.state.mcduPrefixes == s.mcduPrefixes[current.id.value := h.actual] &&
      |e.state.mcduPrefixes| == |s.mcduPrefixes|
  {
    var current := found.value;
    var h := CreateHistoric(response.mcduPrefix, current, now, user);
    assert h.actual.(id := Some(current.id.value)) == h.actual;
    assert s.mcduPrefixes[current.id.value := h.actual].Keys == s.mcduPrefixes.Keys;
  }

  /** A valid item stores a record with the request's key under one id `k`,
      which either is new or held a record with that key. */
  lemma SavedUnderKey(s: Snapshot, response: McduPrefixResponse, found: Option<McduPrefix>, now: Date,
                      user: string)
    returns (k: string, r: McduPrefix)
    requires Consistent(s) && response.code == Success
    requires McduKeyAnswer(s.mcduPrefixes, response.mcduPrefix.Key(), found)
    ensures ExecuteItem(s, response, found, now, user).state.mcduPrefixes == s.mcduPrefixes[k := r]
    ensures r.Key() == response.mcduPrefix.Key()
    ensures k in s.mcduPrefixes ==> s.mcduPrefixes[k].Key() == response.mcduPrefix.Key()
  {
    var t := ExecuteItem(s, response, found, now, user).state;
    var h := t.mcduHistory[|t.mcduHistory| - 1];
    HistoricCopiesActual(response.mcduPrefix, if found.Some? then found.value else DefaultMcduPrefix(response.mcduPrefix, now), now, user);
    if HasMcduKey(s.mcduPrefixes, response.mcduPrefix.Key()) {
      PresentKeyUpdates(s, response, found, now, user);
      k, r := found.value.id.value, h.actual;
    } else {
      AbsentKeyCreates(s, response, found, now, user);
      k :| k !in s.mcduPrefixes && t.mcduPrefixes == s.mcduPrefixes[k := h.actual.(id := Some(k))];
      r := h.actual.(id := Some(k));
    }
  }

  /** One item keeps the repositories consistent, keeps keys unique, keeps every
      key it finds, and leaves the key of a valid request present. */
  lemma ExecuteItemKeepsKeys(s: Snapshot, response: McduPrefixResponse, found: Option<McduPrefix>, now: Date,
                             user: string)
    requires Consistent(s)
    requires response.code == Success ==> McduKeyAnswer(s.mcduPrefixes, response.mcduPrefix.Key(), found)
    ensures var t := ExecuteItem(s, response, found, now, user).state;
      Consistent(t) &&
      (KeysUnique(s.mcduPrefixes) ==> KeysUnique(t.mcduPrefixes)) &&
      (forall key :: HasMcduKey(s.mcduPrefixes, key) ==> HasMcduKey(t.mcduPrefixes, key)) &&
      (response.code == Success ==> HasMcduKey(t.mcduPrefixes, response.mcduPrefix.Key()))
  {
    if response.code == Success {
      var key := response.mcduPrefix.Key();
      var m := s.mcduPrefixes;
      var k, r := SavedUnderKey(s, response, found, now, user);
      var t := m[k := r];
      assert t[k].Key() == key;
      forall x | HasMcduKey(m, x) ensures HasMcduKey(t, x) {
        var j :| j in m && m[j].Key() == x;
        if j != k {
          assert t[j] == m[j];
        }
      }
      if KeysUnique(m) {
        forall b | b in t && b != k ensures t[b].Key() != key {
          assert t[b] == m[b];
        }
      }
    }
  }

  // ---- the batch ----

  lemma ExecuteAllExtend(s: Snapshot, items: seq<McduPrefixResponse>, founds: seq<Option<McduPrefix>>,
                         i: nat, now: Date, user: string)
    requires i < |items| && |founds| == i + 1
    ensures var prev := ExecuteAll(s, items[..i], founds[..i], now, user);
      var e := ExecuteItem(prev.state, items[i], founds[i], now, user);
      ExecuteAll(s, items[..i + 1], founds, now, user) ==
      Processed(prev.responses + [e.result], e.state, prev.calls + e.calls)
  {
    assert items[..i + 1][..i] == items[..i];
  }

  lemma AnsweredExtend(s: Snapshot, items: seq<McduPrefixResponse>, founds: seq<Option<McduPrefix>>,
                       i: nat, now: Date, user: string)
    requires i < |items| && |founds| == i + 1
    requires Answered(s, items[..i], founds[..i], now, user)
    requires items[i].code == Success ==>
               McduKeyAnswer(ExecuteAll(s, items[..i], founds[..i], now, user).state.mcduPrefixes,
                             items[i].mcduPrefix.Key(), founds[i])
    ensures Answered(s, items[..i + 1], founds, now, user)
  {
    assert items[..i + 1][..i] == items[..i];
  }

  /** Each item's answer depends on that item alone. */
  lemma ItemResultIsItemResponse(s: Snapshot, response: McduPrefixResponse, found: Option<McduPrefix>, now: Date,
                                 user: string)
    ensures ExecuteItem(s, response, found, now, user).result == ItemResponse(response)
  {
  }

  /** Each request's answer depends on that request alone: an invalid one is
      returned as it is, a valid one as SUCCESS with its payload. */
  lemma {:induction false} ResponsesAreItemwise(s: Snapshot, items: seq<McduPrefixResponse>,
                                                founds: seq<Option<McduPrefix>>, now: Date, user: string)
    requires |founds| == |items|
    ensures var b := ExecuteAll(s, items, founds, now, user);
      forall i :: 0 <= i < |items| ==> b.responses[i] == ItemResponse(items[i])
    decreases |items|
  {
    if items != [] {
      var n := |items| - 1;
      ResponsesAreItemwise(s, items[..n], founds[..n], now, user);
      var prev := ExecuteAll(s, items[..n], founds[..n], now, user);
      ItemResultIsItemResponse(prev.state, items[n], founds[n], now, user);
      var b := ExecuteAll(s, items, founds, now, user);
      assert b.responses == prev.responses + [ItemResponse(items[n])];
      forall i | 0 <= i < |items| ensures b.responses[i] == ItemResponse(items[i]) {
        if i < n {
          assert items[..n][i] == items[i];
        }
      }
    }
  }

  /** The batch appends one history record per valid request to the history,
      and touches neither the VoIP repository nor the donation history. */
  lemma {:induction false} HistoryGrowsPerValidItem(s: Snapshot, items: seq<McduPrefixResponse>,
                                                    founds: seq<Option<McduPrefix>>, now: Date, user: string)
    requires |founds| == |items|
    ensures var b := ExecuteAll(s, items, founds, now, user);
      |b.state.mcduHistory| == |s.mcduHistory| + CountValid(items) &&
      b.state.mcduHistory[..|s.mcduHistory|] == s.mcduHistory &&
      b.state.resources == s.resources && b.state.donationHistory == s.donationHistory
    decreases |items|
  {
    if items != [] {
      var n := |items| - 1;
      HistoryGrowsPerValidItem(s, items[..n], founds[..n], now, user);
      var prev := ExecuteAll(s, items[..n], founds[..n], now, user);
      if items[n].code == Success {
        ValidItemSavesThenRecords(prev.state, items[n], founds[n], now, user);
      }
    }
  }

  /** Over a whole batch with lawful lookup answers, the repositories stay
      consistent, keys stay unique, no key is lost and every valid request's key
      is present at the end. */
  lemma {:induction false} ExecuteAllKeepsKeys(s: Snapshot, items: seq<McduPrefixResponse>,
                                               founds: seq<Option<McduPrefix>>, now: Date, user: string)
    requires |founds| == |items| && Consistent(s) && Answered(s, items, founds, now, user)
    ensures var t := ExecuteAll(s, items, founds, now, user).state;
      Consistent(t) &&
      (KeysUnique(s.mcduPrefixes) ==> KeysUnique(t.mcduPrefixes)) &&
      (forall key :: HasMcduKey(s.mcduPrefixes, key) ==> HasMcduKey(t.mcduPrefixes, key)) &&
      (forall i :: 0 <= i < |items| && items[i].code == Success ==> HasMcduKey(t.mcduPrefixes, items[i].mcduPrefix.Key()))
    decreases |items|
  {
    if items != [] {
      var n := |items| - 1;
      ExecuteAllKeepsKeys(s, items[..n], founds[..n], now, user);
      var prev := ExecuteAll(s, items[..n], founds[..n], now, user);
      ExecuteItemKeepsKeys(prev.state, items[n], founds[n], now, user);
      var t := ExecuteAll(s, items, founds, now, user).state;
      forall i | 0 <= i < |items| && items[i].code == Success
        ensures HasMcduKey(t.mcduPrefixes, items[i].mcduPrefix.Key())
      {
        if i < n {
          assert items[..n][i] == items[i];
        }
      }
    }
  }

  /** The load always answers SUCCESS, whatever the item codes, with one
      response per request: the validation answer for an invalid request,
      SUCCESS with the payload for a valid one. */
  lemma LoadAnswersEveryRequest(s: Snapshot, list: seq<McduPrefixRequest>, validate: Validate,
                                founds: seq<Option<McduPrefix>>, now: Date, user: string)
    requires |founds| == |list|
    ensures var r := LoadEffect(s, list, validate, founds, now, user).result;
      r.code == Success && r.message == Success && r.payload.Some? && r.payload.value.McduPrefixResponseList? &&
      |r.payload.value.items| == |list| &&
      forall i :: 0 <= i < |list| ==> r.payload.value.items[i] == ItemResponse(validate(list[i]))
  {
    ResponsesAreItemwise(s, ValidateAll(list, validate), founds, now, user);
  }

  /** The mcdu-prefix load process; its repositories, the validator and the
      acting user are injected. */
  class Load {
    const repository: Store
    const validate: Validate
    const currentUser: string

    constructor (repository: Store, validate: Validate, currentUser: string)
      ensures this.repository == repository && this.validate == validate && this.currentUser == currentUser
    {
      this.repository := repository;
      this.validate := validate;
      this.currentUser := currentUser;
    }

    /** `execute(list)`. `founds` are the answers the key lookups gave. */
    method Execute(list: seq<McduPrefixRequest>, now: Date)
      returns (response: DataResponse, ghost founds: seq<Option<McduPrefix>>)
      requires repository.Valid()
      modifies repository
      ensures repository.Valid() && |founds| == |list|
      ensures Answered(old(repository.State()), ValidateAll(list, validate), founds, now, currentUser)
      ensures var e := LoadEffect(old(repository.State()), list, validate, founds, now, currentUser);
        response == e.result && repository.State() == e.state &&
        repository.journal == old(repository.journal) + e.calls
    {
      var responses := ValidateAll(list, validate);
      var collected;
      collected, founds := ExecuteResponses(responses, now);
      response := BatchResponse(collected);
    }

    /** The invariant of the loop over the validated requests after `i` of them,
        started from the repositories `s0` and the journal `j0`. */
    ghost predicate ExecutedPrefix(items: seq<McduPrefixResponse>, i: nat, now: Date, s0: Snapshot, j0: seq<Call>,
                                   out: seq<McduPrefixResponse>, founds: seq<Option<McduPrefix>>)
      reads repository
      requires i <= |items| && |founds| == i
    {
      var b := ExecuteAll(s0, items[..i], founds, now, currentUser);
      Answered(s0, items[..i], founds, now, currentUser) &&
      out == b.responses && repository.State() == b.state && repository.journal == j0 + b.calls
    }

    /** `execute(responses)`: every validated request in turn. */
    method ExecuteResponses(items: seq<McduPrefixResponse>, now: Date)
      returns (out: seq<McduPrefixResponse>, ghost founds: seq<Option<McduPrefix>>)
      requires repository.Valid()
      modifies repository
      ensures repository.Valid() && |founds| == |items|
      ensures Answered(old(repository.State()), items, founds, now, currentUser)
      ensures var b := ExecuteAll(old(repository.State()), items, founds, now, currentUser);
        out == b.responses && repository.State() == b.state &&
        repository.journal == old(repository.journal) + b.calls
    {
      ghost var s0, j0 := repository.State(), repository.journal;
      out, founds := [], [];
      var i := 0;
      while i < |items|
        invariant 0 <= i <= |items| && |founds| == i
        invariant repository.Valid()
        invariant ExecutedPrefix(items, i, now, s0, j0, out, founds)
      {
        out, founds := ExecuteNext(items, i, now, s0, j0, out, founds);
        i := i + 1;
      }
      assert items[..i] == items;
    }

    /** One turn of the loop of `execute(responses)`. */
    method ExecuteNext(items: seq<McduPrefixResponse>, i: nat, now: Date, ghost s0: Snapshot, ghost j0: seq<Call>,
                       out: seq<McduPrefixResponse>, ghost founds: seq<Option<McduPrefix>>)
      returns (out': seq<McduPrefixResponse>, ghost founds': seq<Option<McduPrefix>>)
      requires i < |items| && |founds| == i && repository.Valid()
      requires ExecutedPrefix(items, i, now, s0, j0, out, founds)
      modifies repository
      ensures repository.Valid() && |founds'| == i + 1
      ensures ExecutedPrefix(items, i + 1, now, s0, j0, out', founds')
    {
      ghost var prev := ExecuteAll(s0, items[..i], founds, now, currentUser);
      ghost var j1 := repository.journal;
      ghost var st := repository.State();
      var r, found := ExecuteOne(items[i], now);
      ghost var e := ExecuteItem(st, items[i], found, now, currentUser);
      assert r == e.result && repository.State() == e.state && repository.journal == j1 + e.calls;
      founds' := founds + [found];
      assert founds'[..i] == founds && founds'[i] == found;
      ExecuteAllExtend(s0, items, founds', i, now, currentUser);
      AnsweredExtend(s0, items, founds', i, now, currentUser);
      SeqAssoc(j0, prev.calls, e.calls);
      out' := out + [r];
    }

    /** `execute(response)` for one validated request. `found` is the answer the
        key lookup gave. */
    method ExecuteOne(response: McduPrefixResponse, now: Date)
      returns (r: McduPrefixResponse, ghost found: Option<McduPrefix>)
      requires repository.Valid()
      modifies repository
      ensures repository.Valid()
      ensures response.code == Success ==>
                McduKeyAnswer(old(repository.mcduPrefixes), response.mcduPrefix.Key(), found)
      ensures var e := ExecuteItem(old(repository.State()), response, found, now, currentUser);
        r == e.result && repository.State() == e.state &&
        repository.journal == old(repository.journal) + e.calls
    {
      if response.code != Success {
        return response, None;
      }
      var payload := response.mcduPrefix;
      var existing := repository.FindMcduPrefix(payload.Key());
      found := existing;
      var mcduPrefix := if existing.Some? then existing.value else DefaultMcduPrefix(payload, now);
      var history := CreateHistoric(payload, mcduPrefix, now, currentUser);
      r := Save(payload, history);
      SeqAssoc(old(repository.journal), [McduKeyQuery(payload.Key())], [McduPrefixSave(history.actual), McduHistoricSave(history)]);
    }

    /** `save(payload, historic)`. */
    method Save(payload: McduPrefixRequest, historic: McduPrefixHistoric) returns (r: McduPrefixResponse)
      requires repository.Valid()
      modifies repository
      ensures repository.Valid()
      ensures var e := SaveEffect(old(repository.State()), payload, historic);
        r == e.result && repository.State() == e.state &&
        repository.journal == old(repository.journal) + e.calls
    {
      repository.SaveMcduPrefix(historic.actual);
      repository.SaveMcduHistoric(historic);
      r := McduPrefixResponse(Success, Success, payload);
    }
  }
}
