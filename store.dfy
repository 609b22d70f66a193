/** The repositories the services read and write, held in memory.

    The queries are not part of the modelled code; here they are given the
    meaning their names state, and these definitions are assumptions of the
    model:
    - an interval query matches a record of the same cn and prefix whose closed
      interval [start, end] overlaps the queried one;
    - the installed-number query matches a number record with the given cn, prefix
      and number whose state is INSTALLED;
    - the mcdu-prefix key query matches a record with the given cn, cnl, prefix,
      initial and final mcdu;
    - a single-result query answers with one of the matching records;
    - `lockObject` is a plain read by id;
    - `save` of a record with an id stores it under that id, and of a record
      without one inserts it under an id not used before. */
module Repository {
  import opened Domain

  /** One call from a service into a repository. */
  datatype Call =
    | RangeExistsQuery(cn: int, prefix: int, start: int, end: int)
    | StfcCountQuery(cn: int, prefix: int, start: int, end: int)
    | CarrierQuery(cn: int)
    | McduCountQuery(cn: int, prefix: int, start: int, end: int)
    | InstalledNumberQuery(cn: int, prefix: int, number: int)
    | LockQuery(id: string)
    | McduKeyQuery(key: McduKey)
    | ResourceSave(resource: Resource)
    | DonationHistoricSave(historic: PortabilityDonatorHistoric)
    | McduPrefixSave(record: McduPrefix)
    | McduHistoricSave(mcduHistoric: McduPrefixHistoric)
  {
    predicate IsWrite() {
      ResourceSave? || DonationHistoricSave? || McduPrefixSave? || McduHistoricSave?
    }
  }

  /** The mutable contents of the repositories. */
  datatype Snapshot = Snapshot(
    resources: map<string, Resource>,
    mcduPrefixes: map<string, McduPrefix>,
    donationHistory: seq<PortabilityDonatorHistoric>,
    mcduHistory: seq<McduPrefixHistoric>,
    nextId: nat)

  /** What one service operation does: its result, the repositories afterwards,
      and the repository calls it made, in order. */
  datatype Effect<T> = Effect(result: T, state: Snapshot, calls: seq<Call>)

  /** An id longer than every id issued while the counter was below `n`. */
  function FreshId(n: nat): (id: string)
    ensures |id| == n + 1
  {
    seq(n + 1, _ => '#')
  }

  ghost predicate KeysWithin<T>(m: map<string, T>, n: nat)
  {
    forall k :: k in m ==> |k| <= n
  }

  /** Every record is stored under its own id, and no id reaches the length of
      the next fresh one. */
  ghost predicate Consistent(s: Snapshot)
  {
    (forall k :: k in s.resources ==> s.resources[k].Id() == Some(k)) &&
    (forall k :: k in s.mcduPrefixes ==> s.mcduPrefixes[k].id == Some(k)) &&
    KeysWithin(s.resources, s.nextId) && KeysWithin(s.mcduPrefixes, s.nextId)
  }

  /** The outcome of a save: the new table, the new id counter, the key used. */
  datatype Saved<T> = Saved(table: map<string, T>, nextId: nat, key: string)

  /** A repository save of a record whose id is `id`; `stored(k)` is the record
      with its id set to `k`. */
  function Upsert<T>(m: map<string, T>, nextId: nat, id: Option<string>, stored: string -> T): (s: Saved<T>)
    ensures s.key in s.table && s.table[s.key] == stored(s.key)
    ensures forall k :: k in m && k != s.key ==> k in s.table && s.table[k] == m[k]
    ensures s.table.Keys == m.Keys + {s.key}
    ensures id.Some? ==> s.key == id.value
    ensures id.None? && KeysWithin(m, nextId) ==> s.key !in m
    ensures KeysWithin(m, nextId) ==> KeysWithin(s.table, s.nextId)
    ensures nextId <= s.nextId
  {
    match id
    case Some(k) => Saved(m[k := stored(k)], if |k| > nextId then |k| else nextId, k)
    case None => var k := FreshId(nextId); Saved(m[k := stored(k)], nextId + 1, k)
  }

  /** `repository.save(r)` on the VoIP repository. */
  function SaveResourceIn(s: Snapshot, r: Resource): (t: Snapshot)
    ensures Consistent(s) ==> Consistent(t)
    ensures t.mcduPrefixes == s.mcduPrefixes && t.donationHistory == s.donationHistory
    ensures t.mcduHistory == s.mcduHistory
  {
    var u := Upsert(s.resources, s.nextId, r.Id(), k => r.WithId(k));
    s.(resources := u.table, nextId := u.nextId)
  }

  /** `save(p)` on the mcdu-prefix repository. */
  function SaveMcduPrefixIn(s: Snapshot, p: McduPrefix): (t: Snapshot)
    ensures Consistent(s) ==> Consistent(t)
    ensures t.resources == s.resources && t.donationHistory == s.donationHistory
    ensures t.mcduHistory == s.mcduHistory
  {
    var u := Upsert(s.mcduPrefixes, s.nextId, p.id, k => p.(id := Some(k)));
    s.(mcduPrefixes := u.table, nextId := u.nextId)
  }

  /** Regrouping the calls of consecutive steps. */
  lemma SeqAssoc<T>(a: seq<T>, b: seq<T>, c: seq<T>)
    ensures a + (b + c) == (a + b) + c
  {
  }

  // ---- query definitions ----

  predicate IntervalsOverlap(start1: int, end1: int, start2: int, end2: int)
  {
    start1 <= end2 && start2 <= end1
  }

  predicate RangeMatches(r: Resource, cn: int, prefix: int, start: int, end: int)
  {
    r.RangeResource? && r.range.cn == cn && r.range.prefix == prefix &&
    IntervalsOverlap(r.range.start, r.range.end, start, end)
  }

  /** `existsByCnAndPrefixAndIntersectsRange` on the VoIP repository. */
  predicate AnyRangeIntersects(m: map<string, Resource>, cn: int, prefix: int, start: int, end: int)
  {
    exists k :: k in m && RangeMatches(m[k], cn, prefix, start, end)
  }

  predicate StfcMatches(e: StfcEntry, cn: int, prefix: int, start: int, end: int)
  {
    e.cn == cn && e.prefix == prefix && IntervalsOverlap(e.start, e.end, start, end)
  }

  /** `countByCnAndPrefixAndIntersectsRange` on the legacy table. */
  function CountStfc(t: seq<StfcEntry>, cn: int, prefix: int, start: int, end: int): nat
  {
    if t == [] then 0
    else CountStfc(t[..|t| - 1], cn, prefix, start, end) +
         (if StfcMatches(t[|t| - 1], cn, prefix, start, end) then 1 else 0)
  }

  predicate McduMatches(p: McduPrefix, cn: int, prefix: int, start: int, end: int)
  {
    p.cn == cn && p.prefix == prefix && IntervalsOverlap(p.initialMcdu, p.finalMcdu, start, end)
  }

  /** `countByCnAndPrefixAndIntersectsRange` on the mcdu-prefix repository. */
  function CountMcdu(m: map<string, McduPrefix>, cn: int, prefix: int, start: int, end: int): nat
  {
    |set k | k in m && McduMatches(m[k], cn, prefix, start, end)|
  }

  predicate IsInstalledNumber(r: Resource, cn: int, prefix: int, number: int)
  {
    r.NumberResource? && r.number.cn == cn && r.number.prefix == prefix &&
    r.number.number == number && r.number.state == Installed
  }

  predicate HasInstalledNumber(m: map<string, Resource>, cn: int, prefix: int, number: int)
  {
    exists k :: k in m && IsInstalledNumber(m[k], cn, prefix, number)
  }

  /** `found` is an answer `findNumberInstalledByCnAndPrefixAndNumber` may give:
      empty exactly when nothing matches, otherwise a matching stored number. */
  predicate InstalledNumberAnswer(m: map<string, Resource>, cn: int, prefix: int, number: int,
                                  found: Option<VoipNumber>)
  {
    (found.None? <==> !HasInstalledNumber(m, cn, prefix, number)) &&
    (found.Some? ==>
       found.value.id.Some? && found.value.id.value in m &&
       m[found.value.id.value] == NumberResource(found.value) &&
       IsInstalledNumber(NumberResource(found.value), cn, prefix, number))
  }

  /** `lockObject(id)`, a read by id. */
  function LockOf(m: map<string, Resource>, id: string): Option<Resource>
  {
    if id in m then Some(m[id]) else None
  }

  predicate HasMcduKey(m: map<string, McduPrefix>, key: McduKey)
  {
    exists k :: k in m && m[k].Key() == key
  }

  /** `found` is an answer `findByCnAndCnlAndPrefixAndInitialMcduAndFinalMcdu` may
      give: empty exactly when no record has the key, otherwise a stored record
      with that key. */
  predicate McduKeyAnswer(m: map<string, McduPrefix>, key: McduKey, found: Option<McduPrefix>)
  {
    (found.None? <==> !HasMcduKey(m, key)) &&
    (found.Some? ==>
       found.value.id.Some? && found.value.id.value in m &&
       m[found.value.id.value] == found.value && found.value.Key() == key)
  }

  // ---- what the counts mean ----

  /** The legacy count is zero exactly when no legacy interval overlaps. */
  lemma {:induction false} CountStfcZero(t: seq<StfcEntry>, cn: int, prefix: int, start: int, end: int)
    ensures CountStfc(t, cn, prefix, start, end) == 0 <==>
            forall i :: 0 <= i < |t| ==> !StfcMatches(t[i], cn, prefix, start, end)
  {
    if t != [] {
      var init := t[..|t| - 1];
      CountStfcZero(init, cn, prefix, start, end);
      assert forall i :: 0 <= i < |init| ==> init[i] == t[i];
    }
  }

  lemma {:induction false} CountStfcAtLeastOne(t: seq<StfcEntry>, i: nat, cn: int, prefix: int, start: int, end: int)
    requires i < |t| && StfcMatches(t[i], cn, prefix, start, end)
    ensures CountStfc(t, cn, prefix, start, end) >= 1
  {
    if i < |t| - 1 {
      assert t[..|t| - 1][i] == t[i];
      CountStfcAtLeastOne(t[..|t| - 1], i, cn, prefix, start, end);
    }
  }

  lemma {:induction false} CountStfcAtLeastTwo(t: seq<StfcEntry>, i: nat, j: nat, cn: int, prefix: int, start: int, end: int)
    requires i < j < |t|
    requires StfcMatches(t[i], cn, prefix, start, end) && StfcMatches(t[j], cn, prefix, start, end)
    ensures CountStfc(t, cn, prefix, start, end) >= 2
  {
    var init := t[..|t| - 1];
    assert init[i] == t[i];
    if j < |t| - 1 {
      assert init[j] == t[j];
      CountStfcAtLeastTwo(init, i, j, cn, prefix, start, end);
    } else {
      CountStfcAtLeastOne(init, i, cn, prefix, start, end);
    }
  }

  lemma {:induction false} CountStfcTwoWitnesses(t: seq<StfcEntry>, cn: int, prefix: int, start: int, end: int)
    requires CountStfc(t, cn, prefix, start, end) > 1
    ensures exists i, j :: 0 <= i < j < |t| && StfcMatches(t[i], cn, prefix, start, end) &&
                           StfcMatches(t[j], cn, prefix, start, end)
  {
    var init := t[..|t| - 1];
    var n := |t| - 1;
    assert forall i :: 0 <= i < |init| ==> init[i] == t[i];
    if CountStfc(init, cn, prefix, start, end) > 1 {
      CountStfcTwoWitnesses(init, cn, prefix, start, end);
      var i, j :| 0 <= i < j < |init| && StfcMatches(init[i], cn, prefix, start, end) &&
                  StfcMatches(init[j], cn, prefix, start, end);
      assert StfcMatches(t[i], cn, prefix, start, end) && StfcMatches(t[j], cn, prefix, start, end);
    } else {
      CountStfcZero(init, cn, prefix, start, end);
      var i :| 0 <= i < |init| && StfcMatches(init[i], cn, prefix, start, end);
      assert StfcMatches(t[i], cn, prefix, start, end) && StfcMatches(t[n], cn, prefix, start, end);
    }
  }

  /** The legacy count exceeds one exactly when two distinct legacy intervals overlap. */
  lemma CountStfcMany(t: seq<StfcEntry>, cn: int, prefix: int, start: int, end: int)
    ensures CountStfc(t, cn, prefix, start, end) > 1 <==>
            exists i, j :: 0 <= i < j < |t| && StfcMatches(t[i], cn, prefix, start, end) &&
                           StfcMatches(t[j], cn, prefix, start, end)
  {
    if exists i, j :: 0 <= i < j < |t| && StfcMatches(t[i], cn, prefix, start, end) &&
                      StfcMatches(t[j], cn, prefix, start, end) {
      var i, j :| 0 <= i < j < |t| && StfcMatches(t[i], cn, prefix, start, end) &&
                  StfcMatches(t[j], cn, prefix, start, end);
      CountStfcAtLeastTwo(t, i, j, cn, prefix, start, end);
    }
    if CountStfc(t, cn, prefix, start, end) > 1 {
      CountStfcTwoWitnesses(t, cn, prefix, start, end);
    }
  }

  /** The mcdu-prefix count is zero exactly when no record overlaps. */
  lemma CountMcduZero(m: map<string, McduPrefix>, cn: int, prefix: int, start: int, end: int)
    ensures CountMcdu(m, cn, prefix, start, end) == 0 <==>
            forall k :: k in m ==> !McduMatches(m[k], cn, prefix, start, end)
  {
    var matching := set k | k in m && McduMatches(m[k], cn, prefix, start, end);
    if k :| k in m && McduMatches(m[k], cn, prefix, start, end) {
      assert k in matching;
    }
  }

  /** All repositories of the services, in memory. The legacy table and the
      carrier table are only read. `journal` records every repository call in
      the order the services make them. */
  class Store {
    var resources: map<string, Resource>
    var mcduPrefixes: map<string, McduPrefix>
    var donationHistory: seq<PortabilityDonatorHistoric>
    var mcduHistory: seq<McduPrefixHistoric>
    var nextId: nat
    const stfc: seq<StfcEntry>
    const carriers: set<int>
    ghost var journal: seq<Call>

    function State(): Snapshot
      reads this`resources, this`mcduPrefixes, this`donationHistory, this`mcduHistory, this`nextId
    {
      Snapshot(resources, mcduPrefixes, donationHistory, mcduHistory, nextId)
    }

    ghost predicate Valid()
      reads this`resources, this`mcduPrefixes, this`donationHistory, this`mcduHistory, this`nextId
    {
      Consistent(State())
    }

    constructor (initial: Snapshot, stfc: seq<StfcEntry>, carriers: set<int>)
      requires Consistent(initial)
      ensures Valid() && State() == initial
      ensures this.stfc == stfc && this.carriers == carriers && journal == []
    {
      resources := initial.resources;
      mcduPrefixes := initial.mcduPrefixes;
      donationHistory := initial.donationHistory;
      mcduHistory := initial.mcduHistory;
      nextId := initial.nextId;
      this.stfc := stfc;
      this.carriers := carriers;
      journal := [];
    }

    method RangeExists(cn: int, prefix: int, start: int, end: int) returns (b: bool)
      modifies this`journal
      ensures b == AnyRangeIntersects(resources, cn, prefix, start, end)
      ensures journal == old(journal) + [RangeExistsQuery(cn, prefix, start, end)]
    {
      b := exists k :: k in resources && RangeMatches(resources[k], cn, prefix, start, end);
      journal := journal + [RangeExistsQuery(cn, prefix, start, end)];
    }

    method StfcCount(cn: int, prefix: int, start: int, end: int) returns (n: nat)
      modifies this`journal
      ensures n == CountStfc(stfc, cn, prefix, start, end)
      ensures journal == old(journal) + [StfcCountQuery(cn, prefix, start, end)]
    {
      n := CountStfc(stfc, cn, prefix, start, end);
      journal := journal + [StfcCountQuery(cn, prefix, start, end)];
    }

    method CarrierExists(cn: int) returns (b: bool)
      modifies this`journal
      ensures b == (cn in carriers)
      ensures journal == old(journal) + [CarrierQuery(cn)]
    {
      b := cn in carriers;
      journal := journal + [CarrierQuery(cn)];
    }

    method McduCount(cn: int, prefix: int, start: int, end: int) returns (n: nat)
      modifies this`journal
      ensures n == CountMcdu(mcduPrefixes, cn, prefix, start, end)
      ensures journal == old(journal) + [McduCountQuery(cn, prefix, start, end)]
    {
      n := CountMcdu(mcduPrefixes, cn, prefix, start, end);
      journal := journal + [McduCountQuery(cn, prefix, start, end)];
    }

    method FindInstalledNumber(cn: int, prefix: int, number: int) returns (found: Option<VoipNumber>)
      requires Valid()
      modifies this`journal
      ensures InstalledNumberAnswer(resources, cn, prefix, number, found)
      ensures journal == old(journal) + [InstalledNumberQuery(cn, prefix, number)]
    {
      if k :| k in resources && IsInstalledNumber(resources[k], cn, prefix, number) {
        found := Some(resources[k].number);
      } else {
        found := None;
      }
      journal := journal + [InstalledNumberQuery(cn, prefix, number)];
    }

    method Lock(id: string) returns (r: Option<Resource>)
      modifies this`journal
      ensures r == LockOf(resources, id)
      ensures journal == old(journal) + [LockQuery(id)]
    {
      r := if id in resources then Some(resources[id]) else None;
      journal := journal + [LockQuery(id)];
    }

    method FindMcduPrefix(key: McduKey) returns (found: Option<McduPrefix>)
      requires Valid()
      modifies this`journal
      ensures McduKeyAnswer(mcduPrefixes, key, found)
      ensures journal == old(journal) + [McduKeyQuery(key)]
    {
      if k :| k in mcduPrefixes && mcduPrefixes[k].Key() == key {
        found := Some(mcduPrefixes[k]);
      } else {
        found := None;
      }
      journal := journal + [McduKeyQuery(key)];
    }

    method SaveResource(r: Resource)
      requires Valid()
      modifies this`resources, this`nextId, this`journal
      ensures Valid()
      ensures State() == SaveResourceIn(old(State()), r)
      ensures journal == old(journal) + [ResourceSave(r)]
    {
      var u := Upsert(resources, nextId, r.Id(), k => r.WithId(k));
      resources, nextId := u.table, u.nextId;
      journal := journal + [ResourceSave(r)];
    }

    method SaveMcduPrefix(p: McduPrefix)
      requires Valid()
      modifies this`mcduPrefixes, this`nextId, this`journal
      ensures Valid()
      ensures State() == SaveMcduPrefixIn(old(State()), p)
      ensures journal == old(journal) + [McduPrefixSave(p)]
    {
      var u := Upsert(mcduPrefixes, nextId, p.id, k => p.(id := Some(k)));
      mcduPrefixes, nextId := u.table, u.nextId;
      journal := journal + [McduPrefixSave(p)];
    }

    method SaveDonationHistoric(h: PortabilityDonatorHistoric)
      requires Valid()
      modifies this`donationHistory, this`journal
      ensures Valid()
      ensures State() == old(State()).(donationHistory := old(donationHistory) + [h])
      ensures journal == old(journal) + [DonationHistoricSave(h)]
    {
      donationHistory := donationHistory + [h];
      journal := journal + [DonationHistoricSave(h)];
    }

    method SaveMcduHistoric(h: McduPrefixHistoric)
      requires Valid()
      modifies this`mcduHistory, this`journal
      ensures Valid()
      ensures State() == old(State()).(mcduHistory := old(mcduHistory) + [h])
      ensures journal == old(journal) + [McduHistoricSave(h)]
    {
      mcduHistory := mcduHistory + [h];
      journal := journal + [McduHistoricSave(h)];
    }
  }
}
