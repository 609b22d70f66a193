/** The bulk range load of the VoIP service (`VoipService.load`): each candidate
    range goes through a fixed, short-circuiting chain of checks, and only a
    candidate that passes all four is saved as a new range. */
module RangeLoad {
  import opened Domain
  import opened Repository

  /** The range `new VoipRangeV1(...)` builds from a candidate, before its object
      type is set. */
  function ConstructedRange(nvr: NewVoipRange, now: Date): VoipRange
  {
    VoipRange(None, None, nvr.state, now, nvr.cnl, nvr.cn, nvr.prefix, nvr.start, nvr.end,
              nvr.availabilityDate)
  }

  /** The range the load saves for an admitted candidate: the constructed range
      with object type VOIP_RANGE. */
  function AdmittedRange(nvr: NewVoipRange, now: Date): VoipRange
  {
    ConstructedRange(nvr, now).(kind := Some(VoipRangeObject))
  }

  /** A response without payload; `message` names the code whose message it carries. */
  function Respond(code: ErrorCode, message: ErrorCode): DataResponse
  {
    DataResponse(code, message, None)
  }

  /** The decision the load takes for one candidate `nvr`, against the
      repositories `s`, the legacy table `stfc` and the carrier table `carriers`. */
  function AdmitOne(s: Snapshot, stfc: seq<StfcEntry>, carriers: set<int>, nvr: NewVoipRange, now: Date)
    : Effect<DataResponse>
  {
    var calls1 := [RangeExistsQuery(nvr.cn, nvr.prefix, nvr.start, nvr.end)];
    if AnyRangeIntersects(s.resources, nvr.cn, nvr.prefix, nvr.start, nvr.end) then
      Effect(Respond(ErrRangeExists, ErrRangeExists), s, calls1)
    else
      var count := CountStfc(stfc, nvr.cn, nvr.prefix, nvr.start, nvr.end);
      var calls2 := calls1 + [StfcCountQuery(nvr.cn, nvr.prefix, nvr.start, nvr.end)];
      if count > 1 then
        Effect(Respond(ErrRangeIntersect, ErrRangeIntersect), s, calls2)
      else if count == 0 then
        Effect(Respond(ErrRangeNotExist, ErrRangeNotExist), s, calls2)
      else
        var calls3 := calls2 + [CarrierQuery(nvr.cn)];
        if nvr.cn !in carriers then
          Effect(Respond(ErrCnNotExist, ErrCnNotExist), s, calls3)
        else
          var vr := AdmittedRange(nvr, now);
          var calls4 := calls3 + [McduCountQuery(vr.cn, vr.prefix, vr.start, vr.end)];
          if CountMcdu(s.mcduPrefixes, vr.cn, vr.prefix, vr.start, vr.end) == 0 then
            Effect(Respond(ErrRangeIntersect, ErrRangeNotExistMcduPrefix), s, calls4)
          else
            Effect(Respond(Success, Success), SaveResourceIn(s, RangeResource(vr)),
                   calls4 + [ResourceSave(RangeResource(vr))])
  }

  /** The outcomes of a whole batch, the repositories afterwards and all calls made. */
  datatype Batch = Batch(outcomes: seq<DataResponse>, state: Snapshot, calls: seq<Call>)

  /** The load of a batch, one candidate after the other in list order. */
  function AdmitAll(s: Snapshot, stfc: seq<StfcEntry>, carriers: set<int>, nvrs: seq<NewVoipRange>, now: Date)
    : (b: Batch)
    ensures |b.outcomes| == |nvrs|
    ensures Consistent(s) ==> Consistent(b.state)
    decreases |nvrs|
  {
    if nvrs == [] then Batch([], s, [])
    else
      var prev := AdmitAll(s, stfc, carriers, nvrs[..|nvrs| - 1], now);
      var e := AdmitOne(prev.state, stfc, carriers, nvrs[|nvrs| - 1], now);
      Batch(prev.outcomes + [e.result], e.state, prev.calls + e.calls)
  }

  lemma AdmitAllExtend(s: Snapshot, stfc: seq<StfcEntry>, carriers: set<int>, nvrs: seq<NewVoipRange>,
                       i: nat, now: Date)
    requires i < |nvrs|
    ensures var prev := AdmitAll(s, stfc, carriers, nvrs[..i], now);
      var e := AdmitOne(prev.state, stfc, carriers, nvrs[i], now);
      AdmitAll(s, stfc, carriers, nvrs[..i + 1], now) ==
      Batch(prev.outcomes + [e.result], e.state, prev.calls + e.calls)
  {
    assert nvrs[..i + 1][..i] == nvrs[..i];
  }

  /** No two stored ranges of the same cn and prefix overlap. */
  ghost predicate NoOverlap(m: map<string, Resource>)
  {
    forall a, b :: a in m && b in m && a != b && m[a].RangeResource? ==>
      !RangeMatches(m[b], m[a].range.cn, m[a].range.prefix, m[a].range.start, m[a].range.end)
  }

  function SuccessCount(outcomes: seq<DataResponse>): nat
  {
    if outcomes == [] then 0
    else SuccessCount(outcomes[..|outcomes| - 1]) + (if outcomes[|outcomes| - 1].code == Success then 1 else 0)
  }

  // ---- the decision, check by check ----

  /** An existing overlapping range rejects the candidate with ERR_RANGE_EXISTS;
      nothing else is looked up and nothing is saved. */
  lemma ExistingRangeRejects(s: Snapshot, stfc: seq<StfcEntry>, carriers: set<int>, nvr: NewVoipRange, now: Date)
    requires AnyRangeIntersects(s.resources, nvr.cn, nvr.prefix, nvr.start, nvr.end)
    ensures var e := AdmitOne(s, stfc, carriers, nvr, now);
      e.result == Respond(ErrRangeExists, ErrRangeExists) && e.state == s &&
      e.calls == [RangeExistsQuery(nvr.cn, nvr.prefix, nvr.start, nvr.end)]
  {
  }

  /** Without an overlap, the legacy count decides: more than one match is
      ERR_RANGE_INTERSECT, none is ERR_RANGE_NOT_EXIST, and only exactly one
      leads to further checks. */
  lemma LegacyCountDecides(s: Snapshot, stfc: seq<StfcEntry>, carriers: set<int>, nvr: NewVoipRange, now: Date)
    requires !AnyRangeIntersects(s.resources, nvr.cn, nvr.prefix, nvr.start, nvr.end)
    ensures var e := AdmitOne(s, stfc, carriers, nvr, now);
      var count := CountStfc(stfc, nvr.cn, nvr.prefix, nvr.start, nvr.end);
      (count > 1 ==> e.result == Respond(ErrRangeIntersect, ErrRangeIntersect) && e.state == s) &&
      (count == 0 ==> e.result == Respond(ErrRangeNotExist, ErrRangeNotExist) && e.state == s) &&
      (|e.calls| > 2 <==> count == 1)
  {
  }

  /** The legacy count read as the table: zero matching legacy intervals give
      ERR_RANGE_NOT_EXIST and two distinct ones give ERR_RANGE_INTERSECT. */
  lemma LegacyCoverageDecides(s: Snapshot, stfc: seq<StfcEntry>, carriers: set<int>, nvr: NewVoipRange, now: Date)
    requires !AnyRangeIntersects(s.resources, nvr.cn, nvr.prefix, nvr.start, nvr.end)
    ensures var e := AdmitOne(s, stfc, carriers, nvr, now);
      ((forall i :: 0 <= i < |stfc| ==> !StfcMatches(stfc[i], nvr.cn, nvr.prefix, nvr.start, nvr.end))
         <==> e.result.code == ErrRangeNotExist) &&
      ((exists i, j :: 0 <= i < j < |stfc| && StfcMatches(stfc[i], nvr.cn, nvr.prefix, nvr.start, nvr.end) &&
                       StfcMatches(stfc[j], nvr.cn, nvr.prefix, nvr.start, nvr.end))
         <==> e.result == Respond(ErrRangeIntersect, ErrRangeIntersect))
  {
    CountStfcZero(stfc, nvr.cn, nvr.prefix, nvr.start, nvr.end);
    CountStfcMany(stfc, nvr.cn, nvr.prefix, nvr.start, nvr.end);
  }

  /** With one legacy match but an unregistered carrier, the outcome is
      ERR_CN_NOT_EXIST and nothing is saved. */
  lemma UnknownCarrierRejects(s: Snapshot, stfc: seq<StfcEntry>, carriers: set<int>, nvr: NewVoipRange, now: Date)
    requires !AnyRangeIntersects(s.resources, nvr.cn, nvr.prefix, nvr.start, nvr.end)
    requires CountStfc(stfc, nvr.cn, nvr.prefix, nvr.start, nvr.end) == 1
    requires nvr.cn !in carriers
    ensures var e := AdmitOne(s, stfc, carriers, nvr, now);
      e.result == Respond(ErrCnNotExist, ErrCnNotExist) && e.state == s && |e.calls| == 3
  {
  }

  /** With no mcdu-prefix record covering the candidate, the code is
      ERR_RANGE_INTERSECT while the message is that of
      ERR_RANGE_NOT_EXIST_MCDU_PREFIX, and nothing is saved. */
  lemma MissingMcduPrefixRejects(s: Snapshot, stfc: seq<StfcEntry>, carriers: set<int>, nvr: NewVoipRange, now: Date)
    requires !AnyRangeIntersects(s.resources, nvr.cn, nvr.prefix, nvr.start, nvr.end)
    requires CountStfc(stfc, nvr.cn, nvr.prefix, nvr.start, nvr.end) == 1 && nvr.cn in carriers
    requires forall k :: k in s.mcduPrefixes ==> !McduMatches(s.mcduPrefixes[k], nvr.cn, nvr.prefix, nvr.start, nvr.end)
    ensures var e := AdmitOne(s, stfc, carriers, nvr, now);
      e.result == Respond(ErrRangeIntersect, ErrRangeNotExistMcduPrefix) && e.state == s && |e.calls| == 4
  {
    CountMcduZero(s.mcduPrefixes, nvr.cn, nvr.prefix, nvr.start, nvr.end);
  }

  /** The code ERR_RANGE_INTERSECT does not tell its two causes apart; the message does. */
  lemma RangeIntersectIsAmbiguous(s: Snapshot, stfc: seq<StfcEntry>, carriers: set<int>, nvr: NewVoipRange, now: Date)
    ensures var e := AdmitOne(s, stfc, carriers, nvr, now);
      var overlap := AnyRangeIntersects(s.resources, nvr.cn, nvr.prefix, nvr.start, nvr.end);
      var count := CountStfc(stfc, nvr.cn, nvr.prefix, nvr.start, nvr.end);
      var mcdu := CountMcdu(s.mcduPrefixes, nvr.cn, nvr.prefix, nvr.start, nvr.end);
      (e.result.code == ErrRangeIntersect <==>
         !overlap && (count > 1 || (count == 1 && nvr.cn in carriers && mcdu == 0))) &&
      (e.result.code == ErrRangeIntersect ==>
         (e.result.message == ErrRangeNotExistMcduPrefix <==> count == 1))
  {
  }

  /** A candidate is saved exactly when all four checks pass; the saved range
      carries the candidate's state, cnl, cn, prefix, start, end and availability
      date, has type VOIP_RANGE, and is stored under an id not used before. */
  lemma AdmissionSavesRange(s: Snapshot, stfc: seq<StfcEntry>, carriers: set<int>, nvr: NewVoipRange, now: Date)
    requires Consistent(s)
    ensures var e := AdmitOne(s, stfc, carriers, nvr, now);
      (e.result.code == Success <==>
         !AnyRangeIntersects(s.resources, nvr.cn, nvr.prefix, nvr.start, nvr.end) &&
         CountStfc(stfc, nvr.cn, nvr.prefix, nvr.start, nvr.end) == 1 &&
         nvr.cn in carriers &&
         CountMcdu(s.mcduPrefixes, nvr.cn, nvr.prefix, nvr.start, nvr.end) > 0) &&
      (e.result.code == Success ==>
         e.result == Respond(Success, Success) &&
         exists k :: k !in s.resources && e.state.resources == s.resources[k := RangeResource(
           VoipRange(Some(k), Some(VoipRangeObject), nvr.state, now, nvr.cnl, nvr.cn, nvr.prefix,
                     nvr.start, nvr.end, nvr.availabilityDate))])
  {
    var e := AdmitOne(s, stfc, carriers, nvr, now);
    if e.result.code == Success {
      var r := RangeResource(AdmittedRange(nvr, now));
      var u := Upsert(s.resources, s.nextId, r.Id(), k => r.WithId(k));
      assert u.key !in s.resources;
      assert e.state.resources == s.resources[u.key := r.WithId(u.key)];
    }
  }

  /** A rejected candidate changes no repository and makes no write; an admitted
      one makes exactly one write, the last call, saving the new range. */
  lemma OnlyAdmissionWrites(s: Snapshot, stfc: seq<StfcEntry>, carriers: set<int>, nvr: NewVoipRange, now: Date)
    ensures var e := AdmitOne(s, stfc, carriers, nvr, now);
      (e.result.code != Success ==> e.state == s && forall i :: 0 <= i < |e.calls| ==> !e.calls[i].IsWrite()) &&
      (e.result.code == Success ==>
         e.calls[|e.calls| - 1] == ResourceSave(RangeResource(AdmittedRange(nvr, now))) &&
         forall i :: 0 <= i < |e.calls| - 1 ==> !e.calls[i].IsWrite())
  {
  }

  /** A rejection is stable: the same candidate against the unchanged
      repositories is rejected the same way. */
  lemma RejectionIsRepeatable(s: Snapshot, stfc: seq<StfcEntry>, carriers: set<int>, nvr: NewVoipRange, now: Date)
    requires AdmitOne(s, stfc, carriers, nvr, now).result.code != Success
    ensures var e := AdmitOne(s, stfc, carriers, nvr, now);
      AdmitOne(e.state, stfc, carriers, nvr, now) == e
  {
  }

  // ---- two candidates ----

  /** After a candidate is admitted, any later candidate of the same cn and
      prefix whose interval overlaps it is rejected with ERR_RANGE_EXISTS
      (in particular the same candidate again, when start <= end). */
  lemma OverlappingLaterCandidateRejected(s: Snapshot, stfc: seq<StfcEntry>, carriers: set<int>,
                                          a: NewVoipRange, b: NewVoipRange, now: Date)
    requires Consistent(s)
    requires AdmitOne(s, stfc, carriers, a, now).result.code == Success
    requires a.cn == b.cn && a.prefix == b.prefix && IntervalsOverlap(a.start, a.end, b.start, b.end)
    ensures AdmitOne(AdmitOne(s, stfc, carriers, a, now).state, stfc, carriers, b, now).result ==
            Respond(ErrRangeExists, ErrRangeExists)
  {
    AdmissionSavesRange(s, stfc, carriers, a, now);
    var t := AdmitOne(s, stfc, carriers, a, now).state;
    var k :| k !in s.resources && t.resources == s.resources[k := RangeResource(
      VoipRange(Some(k), Some(VoipRangeObject), a.state, now, a.cnl, a.cn, a.prefix, a.start, a.end, a.availabilityDate))];
    assert RangeMatches(t.resources[k], b.cn, b.prefix, b.start, b.end);
  }

  /** A candidate that does not overlap an admitted one, or belongs to another
      cn or prefix, gets the outcome it would have had without it. */
  lemma DisjointLaterCandidateUnaffected(s: Snapshot, stfc: seq<StfcEntry>, carriers: set<int>,
                                         a: NewVoipRange, b: NewVoipRange, now: Date)
    requires Consistent(s)
    requires AdmitOne(s, stfc, carriers, a, now).result.code == Success
    requires !(a.cn == b.cn && a.prefix == b.prefix && IntervalsOverlap(a.start, a.end, b.start, b.end))
    ensures AdmitOne(AdmitOne(s, stfc, carriers, a, now).state, stfc, carriers, b, now).result ==
            AdmitOne(s, stfc, carriers, b, now).result
  {
    AdmissionSavesRange(s, stfc, carriers, a, now);
    var t := AdmitOne(s, stfc, carriers, a, now).state;
    var k :| k !in s.resources && t.resources == s.resources[k := RangeResource(
      VoipRange(Some(k), Some(VoipRangeObject), a.state, now, a.cnl, a.cn, a.prefix, a.start, a.end, a.availabilityDate))];
    assert !RangeMatches(t.resources[k], b.cn, b.prefix, b.start, b.end);
    if AnyRangeIntersects(t.resources, b.cn, b.prefix, b.start, b.end) {
      var j :| j in t.resources && RangeMatches(t.resources[j], b.cn, b.prefix, b.start, b.end);
      assert j in s.resources && s.resources[j] == t.resources[j];
    }
    if AnyRangeIntersects(s.resources, b.cn, b.prefix, b.start, b.end) {
      var j :| j in s.resources && RangeMatches(s.resources[j], b.cn, b.prefix, b.start, b.end);
      assert j in t.resources && s.resources[j] == t.resources[j];
    }
    assert t.mcduPrefixes == s.mcduPrefixes;
  }

  // ---- the batch ----

  /** One candidate keeps the ranges free of overlaps. */
  lemma AdmitOnePreservesNoOverlap(s: Snapshot, stfc: seq<StfcEntry>, carriers: set<int>, nvr: NewVoipRange, now: Date)
    requires Consistent(s) && NoOverlap(s.resources)
    ensures NoOverlap(AdmitOne(s, stfc, carriers, nvr, now).state.resources)
  {
    var e := AdmitOne(s, stfc, carriers, nvr, now);
    AdmissionSavesRange(s, stfc, carriers, nvr, now);
    if e.result.code == Success {
      var vr := VoipRange(Some(""), Some(VoipRangeObject), nvr.state, now, nvr.cnl, nvr.cn, nvr.prefix,
                          nvr.start, nvr.end, nvr.availabilityDate);
      var k :| k !in s.resources && e.state.resources == s.resources[k := RangeResource(vr.(id := Some(k)))];
      var m := e.state.resources;
      forall a, b | a in m && b in m && a != b && m[a].RangeResource?
        ensures !RangeMatches(m[b], m[a].range.cn, m[a].range.prefix, m[a].range.start, m[a].range.end)
      {
        if a == k {
          assert !RangeMatches(s.resources[b], nvr.cn, nvr.prefix, nvr.start, nvr.end);
        } else if b == k {
          assert !RangeMatches(s.resources[a], nvr.cn, nvr.prefix, nvr.start, nvr.end);
        }
      }
    }
  }

  /** A whole batch keeps the ranges free of overlaps: within the batch too, a
      candidate overlapping an earlier admitted one is rejected. */
  lemma {:induction false} AdmitAllPreservesNoOverlap(s: Snapshot, stfc: seq<StfcEntry>, carriers: set<int>,
                                                      nvrs: seq<NewVoipRange>, now: Date)
    requires Consistent(s) && NoOverlap(s.resources)
    ensures NoOverlap(AdmitAll(s, stfc, carriers, nvrs, now).state.resources)
    decreases |nvrs|
  {
    if nvrs != [] {
      var prev := AdmitAll(s, stfc, carriers, nvrs[..|nvrs| - 1], now);
      AdmitAllPreservesNoOverlap(s, stfc, carriers, nvrs[..|nvrs| - 1], now);
      AdmitOnePreservesNoOverlap(prev.state, stfc, carriers, nvrs[|nvrs| - 1], now);
    }
  }

  /** The batch adds exactly one record per SUCCESS outcome and changes no
      other repository. */
  lemma {:induction false} AdmitAllAddsOneRangePerSuccess(s: Snapshot, stfc: seq<StfcEntry>, carriers: set<int>,
                                                          nvrs: seq<NewVoipRange>, now: Date)
    requires Consistent(s)
    ensures var b := AdmitAll(s, stfc, carriers, nvrs, now);
      |b.state.resources| == |s.resources| + SuccessCount(b.outcomes) &&
      s.resources.Keys <= b.state.resources.Keys &&
      b.state.mcduPrefixes == s.mcduPrefixes && b.state.donationHistory == s.donationHistory &&
      b.state.mcduHistory == s.mcduHistory
    decreases |nvrs|
  {
    if nvrs != [] {
      var init := nvrs[..|nvrs| - 1];
      var prev := AdmitAll(s, stfc, carriers, init, now);
      AdmitAllAddsOneRangePerSuccess(s, stfc, carriers, init, now);
      var nvr := nvrs[|nvrs| - 1];
      var e := AdmitOne(prev.state, stfc, carriers, nvr, now);
      AdmissionSavesRange(prev.state, stfc, carriers, nvr, now);
      var b := AdmitAll(s, stfc, carriers, nvrs, now);
      assert b.outcomes[..|b.outcomes| - 1] == prev.outcomes;
      if e.result.code == Success {
        var vr := VoipRange(Some(""), Some(VoipRangeObject), nvr.state, now, nvr.cnl, nvr.cn, nvr.prefix,
                            nvr.start, nvr.end, nvr.availabilityDate);
        var k :| k !in prev.state.resources &&
                 e.state.resources == prev.state.resources[k := RangeResource(vr.(id := Some(k)))];
        assert e.state.resources.Keys == prev.state.resources.Keys + {k};
      }
    }
  }

  /** The example of a single candidate against an empty range store with
      matching legacy, carrier and mcdu-prefix records: one SUCCESS and one range. */
  lemma SingleCandidateExample(now: Date)
    ensures var mcdu := McduPrefix(Some("m"), 98, 11, 1000, 1999, 0, "E1",
                                   Descriptive(AuditedFields("", "", "", "", "", "", "", ""), []),
                                   None, None, None, None);
      var s := Snapshot(map[], map["m" := mcdu], [], [], 1);
      var nvr := NewVoipRange(11, 0, 98, 1000, 1999, Installed, now);
      var b := AdmitAll(s, [StfcEntry(11, 98, 0, 9999)], {11}, [nvr], now);
      b.outcomes == [Respond(Success, Success)] && |b.state.resources| == 1
  {
    var mcdu := McduPrefix(Some("m"), 98, 11, 1000, 1999, 0, "E1",
                           Descriptive(AuditedFields("", "", "", "", "", "", "", ""), []),
                           None, None, None, None);
    var s := Snapshot(map[], map["m" := mcdu], [], [], 1);
    var nvr := NewVoipRange(11, 0, 98, 1000, 1999, Installed, now);
    var stfc := [StfcEntry(11, 98, 0, 9999)];
    assert stfc[..0] == [];
    assert CountStfc(stfc, 11, 98, 1000, 1999) == 1;
    assert (set k | k in s.mcduPrefixes && McduMatches(s.mcduPrefixes[k], 11, 98, 1000, 1999)) == {"m"};
    assert [nvr][..0] == [];
    AdmitAllAddsOneRangePerSuccess(s, stfc, {11}, [nvr], now);
    var b := AdmitAll(s, stfc, {11}, [nvr], now);
    assert b.outcomes[..0] == [];
  }

  /** The VoIP service; its repositories are injected. */
  class VoipService {
    const repository: Store

    constructor (repository: Store)
      ensures this.repository == repository
    {
      this.repository := repository;
    }

    /** One candidate of `load`. */
    method LoadOne(nvr: NewVoipRange, now: Date) returns (outcome: DataResponse)
      requires repository.Valid()
      modifies repository
      ensures repository.Valid()
      ensures var e := AdmitOne(old(repository.State()), repository.stfc, repository.carriers, nvr, now);
        outcome == e.result && repository.State() == e.state &&
        repository.journal == old(repository.journal) + e.calls
    {
      var overlaps := repository.RangeExists(nvr.cn, nvr.prefix, nvr.start, nvr.end);
      if overlaps {
        outcome := Respond(ErrRangeExists, ErrRangeExists);
        return;
      }
      var count := repository.StfcCount(nvr.cn, nvr.prefix, nvr.start, nvr.end);
      if count > 1 {
        outcome := Respond(ErrRangeIntersect, ErrRangeIntersect);
      } else if count == 0 {
        outcome := Respond(ErrRangeNotExist, ErrRangeNotExist);
      } else {
        var existCn := repository.CarrierExists(nvr.cn);
        if existCn {
          var vr := ConstructedRange(nvr, now);
          vr := vr.(kind := Some(VoipRangeObject));
          var mcduCount := repository.McduCount(vr.cn, vr.prefix, vr.start, vr.end);
          if mcduCount == 0 {
            outcome := Respond(ErrRangeIntersect, ErrRangeNotExistMcduPrefix);
          } else {
            repository.SaveResource(RangeResource(vr));
            outcome := Respond(Success, Success);
          }
        } else {
          outcome := Respond(ErrCnNotExist, ErrCnNotExist);
        }
      }
    }

    /** The invariant of the loop of `load` after `i` candidates, started from
        the repositories `s0` and the journal `j0`. */
    ghost predicate LoadedPrefix(nvrList: seq<NewVoipRange>, i: nat, now: Date, s0: Snapshot, j0: seq<Call>,
                                 outcomes: seq<DataResponse>)
      reads repository
      requires i <= |nvrList|
    {
      var b := AdmitAll(s0, repository.stfc, repository.carriers, nvrList[..i], now);
      outcomes == b.outcomes && repository.State() == b.state && repository.journal == j0 + b.calls
    }

    /** One turn of the loop of `load`. */
    method LoadNext(nvrList: seq<NewVoipRange>, i: nat, now: Date, ghost s0: Snapshot, ghost j0: seq<Call>,
                    outcomes: seq<DataResponse>)
      returns (outcomes': seq<DataResponse>)
      requires i < |nvrList| && repository.Valid()
      requires LoadedPrefix(nvrList, i, now, s0, j0, outcomes)
      modifies repository
      ensures repository.Valid()
      ensures LoadedPrefix(nvrList, i + 1, now, s0, j0, outcomes')
    {
      ghost var prev := AdmitAll(s0, repository.stfc, repository.carriers, nvrList[..i], now);
      ghost var j1 := repository.journal;
      ghost var e := AdmitOne(repository.State(), repository.stfc, repository.carriers, nvrList[i], now);
      var outcome := LoadOne(nvrList[i], now);
      assert outcome == e.result && repository.State() == e.state && repository.journal == j1 + e.calls;
      AdmitAllExtend(s0, repository.stfc, repository.carriers, nvrList, i, now);
      SeqAssoc(j0, prev.calls, e.calls);
      outcomes' := outcomes + [outcome];
    }

    /** `load`: every candidate in turn, then the merge of the outcomes. */
    method Load(nvrList: seq<NewVoipRange>, now: Date, merge: seq<DataResponse> -> DataResponse)
      returns (outcomes: seq<DataResponse>, response: DataResponse)
      requires repository.Valid()
      modifies repository
      ensures repository.Valid()
      ensures var b := AdmitAll(old(repository.State()), repository.stfc, repository.carriers, nvrList, now);
        outcomes == b.outcomes && repository.State() == b.state &&
        repository.journal == old(repository.journal) + b.calls
      ensures |outcomes| == |nvrList| && response == merge(outcomes)
    {
      ghost var s0, j0 := repository.State(), repository.journal;
      outcomes := [];
      var i := 0;
      while i < |nvrList|
        invariant 0 <= i <= |nvrList|
        invariant repository.Valid()
        invariant LoadedPrefix(nvrList, i, now, s0, j0, outcomes)
      {
        outcomes := LoadNext(nvrList, i, now, s0, j0, outcomes);
        i := i + 1;
      }
      assert nvrList[..i] == nvrList;
      response := merge(outcomes);
    }
  }
}
