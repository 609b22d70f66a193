/** The donation of an installed VoIP number to another carrier
    (`BadExampleService.donate`): find the installed number, lock it, check that
    it belongs to a range, lock that range, move both to DONATED, and write the
    donation history, the range and the number, in that order. */
module Donation {
  import opened Domain
  import opened Padding
  import opened Repository

  /** The fixed note of every donation history record. */
  const Note := "O numero foi portado para outra operadora"

  /** `VoipOperations.changeState(range, number, state, null)`; it is not part of
      the model, so the workflow takes it as a parameter. */
  type ChangeState = (VoipRange, VoipNumber, ResourceState) -> VoipPair

  /** The history record of the donation of the found number `vn`. */
  function DonationHistoric(vn: VoipNumber, phoneNumber: string, user: string, eotCode: string, now: Date)
    : PortabilityDonatorHistoric
  {
    PortabilityDonatorHistoric(vn.cn, vn.cnl, vn.prefix, vn.number, phoneNumber, user, eotCode, Note, now)
  }

  /** A parent id that is null or empty. */
  predicate ParentMissing(parent: Option<string>)
  {
    parent.None? || parent.value == ""
  }

  /** The success response: SUCCESS, wrapping the changed number as a VOIP resource. */
  function DonatedResponse(vn: VoipNumber): DataResponse
  {
    DataResponse(Success, Success, Some(VoipResource(Voip, vn)))
  }

  /** The three saves, in order: the history record, the changed range, the changed number. */
  function DonationWrites(s: Snapshot, h: PortabilityDonatorHistoric, vp: VoipPair): (t: Snapshot)
    ensures Consistent(s) ==> Consistent(t)
  {
    SaveResourceIn(SaveResourceIn(s.(donationHistory := s.donationHistory + [h]), RangeResource(vp.vr)),
                   NumberResource(vp.vn))
  }

  /** The donation once the number `vn1` is locked: the parent check, the range
      lock, the state change and the writes, with the calls these steps make. */
  function DonateLocked(s: Snapshot, vn1: VoipNumber, h: PortabilityDonatorHistoric, changeState: ChangeState)
    : Effect<Reply<DataResponse>>
  {
    if ParentMissing(vn1.parent) then Effect(Failed(UndefinedParentException), s, [])
    else
      var calls := [LockQuery(vn1.parent.value)];
      var locked := LockOf(s.resources, vn1.parent.value);
      if locked.None? then Effect(Completed, s, calls)
      else if !locked.value.RangeResource? then Effect(Failed(ClassCastException), s, calls)
      else
        var vp := changeState(locked.value.range, vn1, Donated);
        Effect(Value(DonatedResponse(vp.vn)), DonationWrites(s, h, vp),
               calls + [DonationHistoricSave(h), ResourceSave(RangeResource(vp.vr)),
                        ResourceSave(NumberResource(vp.vn))])
  }

  /** The donation once the installed number `vn` is found: the number lock,
      the cast to a number, and the rest, with the calls these steps make. */
  function DonateFound(s: Snapshot, vn: VoipNumber, h: PortabilityDonatorHistoric, changeState: ChangeState)
    : Effect<Reply<DataResponse>>
    requires vn.id.Some?
  {
    var calls := [LockQuery(vn.id.value)];
    var locked := LockOf(s.resources, vn.id.value);
    if locked.None? then Effect(Completed, s, calls)
    else if !locked.value.NumberResource? then Effect(Failed(ClassCastException), s, calls)
    else
      var e := DonateLocked(s, locked.value.number, h, changeState);
      Effect(e.result, e.state, calls + e.calls)
  }

  /** `donate(cn, prefix, number, eotCode, responsibleUser)` against the
      repositories `s`, where `found` is the answer of the installed-number query.
      An empty query answer or an empty lock completes without a value. */
  function DonateEffect(s: Snapshot, found: Option<VoipNumber>, cn: int, prefix: int, number: int,
                        eotCode: string, user: string, now: Date, changeState: ChangeState)
    : Effect<Reply<DataResponse>>
    requires found.Some? ==> found.value.id.Some?
  {
    var calls := [InstalledNumberQuery(cn, prefix, number)];
    if found.None? then Effect(Completed, s, calls)
    else
      var h := DonationHistoric(found.value, PhoneNumber(prefix, number), user, eotCode, now);
      var e := DonateFound(s, found.value, h, changeState);
      Effect(e.result, e.state, calls + e.calls)
  }

  lemma AppendFour<T>(j: seq<T>, a: T, b: T, c: T, d: T)
    ensures j + [a] + [b] + [c] + [d] == j + ([a] + [b, c, d])
  {
  }

  lemma SixCalls<T>(a: T, b: T, c: T, d: T, e: T, f: T)
    ensures [a] + ([b] + [c, d, e, f]) == [a, b, c, d, e, f]
  {
  }

  // ---- properties ----

  /** With no installed number the call completes empty after the one query. */
  lemma NoInstalledNumberCompletesEmpty(s: Snapshot, found: Option<VoipNumber>, cn: int, prefix: int, number: int,
                                        eotCode: string, user: string, now: Date, changeState: ChangeState)
    requires InstalledNumberAnswer(s.resources, cn, prefix, number, found)
    requires !HasInstalledNumber(s.resources, cn, prefix, number)
    ensures var e := DonateEffect(s, found, cn, prefix, number, eotCode, user, now, changeState);
      e.result == Completed && e.state == s && e.calls == [InstalledNumberQuery(cn, prefix, number)]
  {
  }

  /** The first lock is on the found number and returns that number itself. */
  lemma FirstLockReturnsFoundNumber(s: Snapshot, found: Option<VoipNumber>, cn: int, prefix: int, number: int)
    requires InstalledNumberAnswer(s.resources, cn, prefix, number, found) && found.Some?
    ensures LockOf(s.resources, found.value.id.value) == Some(NumberResource(found.value))
  {
  }

  /** The call fails with UndefinedParentException exactly when the found number
      has a null or empty parent id; it then writes nothing and changes nothing. */
  lemma UndefinedParentWritesNothing(s: Snapshot, found: Option<VoipNumber>, cn: int, prefix: int, number: int,
                                     eotCode: string, user: string, now: Date, changeState: ChangeState)
    requires InstalledNumberAnswer(s.resources, cn, prefix, number, found)
    ensures var e := DonateEffect(s, found, cn, prefix, number, eotCode, user, now, changeState);
      (e.result == Failed(UndefinedParentException) <==> found.Some? && ParentMissing(found.value.parent)) &&
      (e.result == Failed(UndefinedParentException) ==>
         e.state == s && e.calls == [InstalledNumberQuery(cn, prefix, number), LockQuery(found.value.id.value)])
  {
  }

  /** Every outcome other than a value leaves the repositories as they were and
      makes no write. */
  lemma OnlySuccessWrites(s: Snapshot, found: Option<VoipNumber>, cn: int, prefix: int, number: int,
                          eotCode: string, user: string, now: Date, changeState: ChangeState)
    requires found.Some? ==> found.value.id.Some?
    ensures var e := DonateEffect(s, found, cn, prefix, number, eotCode, user, now, changeState);
      !e.result.Value? ==> e.state == s && forall i :: 0 <= i < |e.calls| ==> !e.calls[i].IsWrite()
  {
  }

  /** After the number is locked: a value exactly when the parent id is set and
      locks a range, and then the parent lock and the three writes, in order. */
  lemma LockedSucceeds(s: Snapshot, vn1: VoipNumber, h: PortabilityDonatorHistoric, changeState: ChangeState)
    ensures var e := DonateLocked(s, vn1, h, changeState);
      (e.result.Value? <==>
         !ParentMissing(vn1.parent) && LockOf(s.resources, vn1.parent.value).Some? &&
         LockOf(s.resources, vn1.parent.value).value.RangeResource?) &&
      (e.result.Value? ==>
         var vp := changeState(s.resources[vn1.parent.value].range, vn1, Donated);
         e.result == Value(DonatedResponse(vp.vn)) &&
         e.calls == [LockQuery(vn1.parent.value), DonationHistoricSave(h), ResourceSave(RangeResource(vp.vr)),
                     ResourceSave(NumberResource(vp.vn))])
  {
  }

  /** The donation succeeds exactly when an installed number is found, its parent
      id is set and that id locks a range. The parent is locked after the number;
      `changeState` is applied to the locked range and number with DONATED; then
      exactly three writes follow, in order: the history record, the changed range
      and the changed number; the result is SUCCESS with the changed number. */
  lemma DonationWritesInOrder(s: Snapshot, found: Option<VoipNumber>, cn: int, prefix: int, number: int,
                              eotCode: string, user: string, now: Date, changeState: ChangeState)
    requires InstalledNumberAnswer(s.resources, cn, prefix, number, found)
    ensures var e := DonateEffect(s, found, cn, prefix, number, eotCode, user, now, changeState);
      (e.result.Value? <==>
         found.Some? && !ParentMissing(found.value.parent) &&
         LockOf(s.resources, found.value.parent.value).Some? &&
         LockOf(s.resources, found.value.parent.value).value.RangeResource?) &&
      (e.result.Value? ==>
         var vn := found.value;
         var vr := s.resources[vn.parent.value].range;
         var vp := changeState(vr, vn, Donated);
         var h := DonationHistoric(vn, PhoneNumber(prefix, number), user, eotCode, now);
         e.result == Value(DataResponse(Success, Success, Some(VoipResource(Voip, vp.vn)))) &&
         e.calls == [InstalledNumberQuery(cn, prefix, number), LockQuery(vn.id.value), LockQuery(vn.parent.value),
                     DonationHistoricSave(h), ResourceSave(RangeResource(vp.vr)),
                     ResourceSave(NumberResource(vp.vn))])
  {
    if found.Some? {
      var vn := found.value;
      var h := DonationHistoric(vn, PhoneNumber(prefix, number), user, eotCode, now);
      var l := DonateLocked(s, vn, h, changeState);
      assert LockOf(s.resources, vn.id.value) == Some(NumberResource(vn));
      assert DonateFound(s, vn, h, changeState) == Effect(l.result, l.state, [LockQuery(vn.id.value)] + l.calls);
      LockedSucceeds(s, vn, h, changeState);
      if l.result.Value? {
        var vp := changeState(s.resources[vn.parent.value].range, vn, Donated);
        SixCalls(InstalledNumberQuery(cn, prefix, number), LockQuery(vn.id.value), LockQuery(vn.parent.value),
                 DonationHistoricSave(h), ResourceSave(RangeResource(vp.vr)), ResourceSave(NumberResource(vp.vn)));
      }
    }
  }

  /** A parent id that locks a number, not a range, fails the cast to a range. */
  lemma ParentNotARangeFailsCast(s: Snapshot, found: Option<VoipNumber>, cn: int, prefix: int, number: int,
                                 eotCode: string, user: string, now: Date, changeState: ChangeState)
    requires InstalledNumberAnswer(s.resources, cn, prefix, number, found)
    requires found.Some? && !ParentMissing(found.value.parent)
    requires LockOf(s.resources, found.value.parent.value).Some?
    requires LockOf(s.resources, found.value.parent.value).value.NumberResource?
    ensures DonateEffect(s, found, cn, prefix, number, eotCode, user, now, changeState).result ==
            Failed(ClassCastException)
  {
  }

  /** On success, the history gains one record: the found number's cn, cnl,
      prefix and number, the padded phone number, the responsible user, the eot
      code, the fixed note and the clock value. For a prefix and a number within
      0..9999 the phone number is eight digits: the prefix then the number. */
  lemma DonationHistoricRecord(s: Snapshot, found: Option<VoipNumber>, cn: int, prefix: int, number: int,
                               eotCode: string, user: string, now: Date, changeState: ChangeState)
    requires InstalledNumberAnswer(s.resources, cn, prefix, number, found)
    requires DonateEffect(s, found, cn, prefix, number, eotCode, user, now, changeState).result.Value?
    ensures var e := DonateEffect(s, found, cn, prefix, number, eotCode, user, now, changeState);
      |e.state.donationHistory| == |s.donationHistory| + 1 &&
      e.state.donationHistory[..|s.donationHistory|] == s.donationHistory &&
      var h := e.state.donationHistory[|s.donationHistory|];
      h.cn == cn && h.prefix == prefix && h.number == number && h.cnl == found.value.cnl &&
      h.responsibleUser == user && h.eotCode == eotCode && h.note == Note && h.date == now &&
      h.phoneNumber == PhoneNumber(prefix, number) &&
      (0 <= prefix <= 9999 && 0 <= number <= 9999 ==>
         |h.phoneNumber| == 8 && IsDigits(h.phoneNumber) &&
         DecimalValue(h.phoneNumber[..4]) == prefix && DecimalValue(h.phoneNumber[4..]) == number)
  {
    if 0 <= prefix <= 9999 && 0 <= number <= 9999 {
      PhoneNumberRoundTrip(prefix, number);
    }
    var e := DonateEffect(s, found, cn, prefix, number, eotCode, user, now, changeState);
    var h := DonationHistoric(found.value, PhoneNumber(prefix, number), user, eotCode, now);
    assert e.state.donationHistory == s.donationHistory + [h];
  }

  /** On success, the changed number is in the VoIP repository, under the id it
      was saved with. The changed range was saved before it, and is overwritten
      when `changeState` gives both the same id. The repositories stay
      consistent and the mcdu-prefix ones are untouched. */
  lemma DonationStoresChangedNumber(s: Snapshot, found: Option<VoipNumber>, cn: int, prefix: int, number: int,
                                    eotCode: string, user: string, now: Date, changeState: ChangeState)
    requires Consistent(s) && InstalledNumberAnswer(s.resources, cn, prefix, number, found)
    requires DonateEffect(s, found, cn, prefix, number, eotCode, user, now, changeState).result.Value?
    ensures var e := DonateEffect(s, found, cn, prefix, number, eotCode, user, now, changeState);
      var vn := e.result.value.payload.value.number;
      Consistent(e.state) && e.state.mcduPrefixes == s.mcduPrefixes && e.state.mcduHistory == s.mcduHistory &&
      (exists k :: k in e.state.resources && e.state.resources[k] == NumberResource(vn).WithId(k)) &&
      (vn.id.Some? ==> vn.id.value in e.state.resources &&
                       e.state.resources[vn.id.value] == NumberResource(vn))
  {
    var e := DonateEffect(s, found, cn, prefix, number, eotCode, user, now, changeState);
    var vn1 := found.value;
    var vp := changeState(s.resources[vn1.parent.value].range, vn1, Donated);
    var s2 := SaveResourceIn(s.(donationHistory := s.donationHistory + [DonationHistoric(vn1, PhoneNumber(prefix, number), user, eotCode, now)]), RangeResource(vp.vr));
    var r := NumberResource(vp.vn);
    var u := Upsert(s2.resources, s2.nextId, r.Id(), k => r.WithId(k));
    assert e.state.resources == u.table;
    assert u.table[u.key] == r.WithId(u.key);
  }

  /** The number donation service; its repositories are injected. */
  class BadExampleService {
    const repository: Store

    constructor (repository: Store)
      ensures this.repository == repository
    {
      this.repository := repository;
    }

    /** `donate`. `found` is the answer the installed-number query gave. */
    method Donate(cn: int, prefix: int, number: int, eotCode: string, responsibleUser: string, now: Date,
                  changeState: ChangeState)
      returns (reply: Reply<DataResponse>, ghost found: Option<VoipNumber>)
      requires repository.Valid()
      modifies repository
      ensures repository.Valid()
      ensures InstalledNumberAnswer(old(repository.resources), cn, prefix, number, found)
      ensures var e := DonateEffect(old(repository.State()), found, cn, prefix, number, eotCode, responsibleUser,
                                    now, changeState);
        reply == e.result && repository.State() == e.state &&
        repository.journal == old(repository.journal) + e.calls
    {
      var paddedPrefix := PaddedCode(prefix);
      var paddedNumber := PaddedCode(number);
      var phoneNumber := paddedPrefix + paddedNumber;
      var vnFound := repository.FindInstalledNumber(cn, prefix, number);
      found := vnFound;
      if vnFound.None? {
        return Completed, found;
      }
      var vn := vnFound.value;
      ghost var j1 := repository.journal;
      ghost var e := DonateFound(repository.State(), vn,
                                 DonationHistoric(vn, phoneNumber, responsibleUser, eotCode, now), changeState);
      reply := DonateFoundNumber(vn, phoneNumber, eotCode, responsibleUser, now, changeState);
      assert repository.journal == j1 + e.calls;
      SeqAssoc(old(repository.journal), [InstalledNumberQuery(cn, prefix, number)], e.calls);
    }

    /** The part of `donate` after the installed number `vn` is found: lock it,
        cast it, build the history record, and go on with the parent. */
    method DonateFoundNumber(vn: VoipNumber, phoneNumber: string, eotCode: string, responsibleUser: string,
                             now: Date, changeState: ChangeState)
      returns (reply: Reply<DataResponse>)
      requires vn.id.Some? && repository.Valid()
      modifies repository
      ensures repository.Valid()
      ensures var e := DonateFound(old(repository.State()), vn,
                                   DonationHistoric(vn, phoneNumber, responsibleUser, eotCode, now), changeState);
        reply == e.result && repository.State() == e.state &&
        repository.journal == old(repository.journal) + e.calls
    {
      var vb := repository.Lock(vn.id.value);
      if vb.None? {
        return Completed;
      }
      if !vb.value.NumberResource? {
        return Failed(ClassCastException);
      }
      var vn1 := vb.value.number;
      var portabilityHistoric := DonationHistoric(vn, phoneNumber, responsibleUser, eotCode, now);
      ghost var j1 := repository.journal;
      ghost var e := DonateLocked(repository.State(), vn1, portabilityHistoric, changeState);
      reply := DonateLockedNumber(vn1, portabilityHistoric, changeState);
      assert repository.journal == j1 + e.calls;
      SeqAssoc(old(repository.journal), [LockQuery(vn.id.value)], e.calls);
    }

    /** The part of `donate` after the number is locked: the parent check, the
        parent lock, the state change and the three saves. */
    method DonateLockedNumber(vn1: VoipNumber, portabilityHistoric: PortabilityDonatorHistoric,
                              changeState: ChangeState)
      returns (reply: Reply<DataResponse>)
      requires repository.Valid()
      modifies repository
      ensures repository.Valid()
      ensures var e := DonateLocked(old(repository.State()), vn1, portabilityHistoric, changeState);
        reply == e.result && repository.State() == e.state &&
        repository.journal == old(repository.journal) + e.calls
    {
      var parentId := vn1.parent;
      if parentId.None? || parentId.value == "" {
        return Failed(UndefinedParentException);
      }
      var vb1 := repository.Lock(parentId.value);
      if vb1.None? {
        return Completed;
      }
      if !vb1.value.RangeResource? {
        return Failed(ClassCastException);
      }
      var vp := changeState(vb1.value.range, vn1, Donated);
      ghost var s0 := repository.State();
      repository.SaveDonationHistoric(portabilityHistoric);
      ghost var s1 := repository.State();
      repository.SaveResource(RangeResource(vp.vr));
      ghost var s2 := repository.State();
      repository.SaveResource(NumberResource(vp.vn));
      assert repository.State() == SaveResourceIn(s2, NumberResource(vp.vn));
      assert s2 == SaveResourceIn(s1, RangeResource(vp.vr));
      assert repository.State() == DonationWrites(s0, portabilityHistoric, vp);
      AppendFour(old(repository.journal), LockQuery(parentId.value), DonationHistoricSave(portabilityHistoric),
                 ResourceSave(RangeResource(vp.vr)), ResourceSave(NumberResource(vp.vn)));
      reply := Value(DonatedResponse(vp.vn));
    }
  }
}
