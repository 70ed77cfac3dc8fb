/**
 * `VehicleService.get_similar_vehicles`: the decision procedure that turns
 * a partner's description into one catalogue record or none.
 *
 * The collaborators are parameters. The catalogue is a map from `id_crabi`
 * to description (the column is unique), the vector store's answer is the
 * ranked list of hits it returned for the normalised text, and the
 * arbitration model's verdict is an arbitrary optional id. The outcome
 * records, besides the record returned, the calls made to the
 * collaborators, in order, so that "no lookup" and "no arbitration" can be
 * stated.
 *
 * Line numbers below refer to `app/services/vehicle_service.py`.
 */
module Matching {
  import opened Wrappers
  import Normalize

  /** A catalogue record: `id_crabi` and description. */
  datatype Vehicle = Vehicle(idCrabi: string, description: string)

  /** `id_crabi` to description; at most one record per id. */
  type Catalog = map<string, string>

  /** One hit of the vector query: an id and, when present, a similarity score. */
  datatype Hit = Hit(id: string, score: Option<real>)

  /** The thresholds of the two bands and the number of hits asked for. */
  datatype Config = Config(threshold: real, bestEffort: real, topK: nat)

  /** The values `app/core/config.py` sets. */
  const DefaultConfig: Config := Config(0.85, 0.70, 10)

  /** What the arbitration model is shown for one record. */
  datatype VehicleOption = VehicleOption(id: string, description: string)

  /** A call to a collaborator. */
  datatype Call =
    | VectorQuery(text: string, topK: nat)
    | LookupOne(id: string)
    | LookupMany(ids: seq<string>)
    | Arbitrate(userDescription: string, options: set<VehicleOption>)

  /** The record returned, and the collaborator calls made on the way, in order. */
  datatype Outcome = Outcome(vehicle: Option<Vehicle>, calls: seq<Call>)

  // ---------------------------------------------------------------------
  // Storage
  // ---------------------------------------------------------------------

  /** Lines 29-30: the record with this `id_crabi`, if the catalogue holds one. */
  function GetVehicleByCrabiId(catalog: Catalog, id: string): (r: Option<Vehicle>)
    ensures r.Some? <==> id in catalog
    ensures r.Some? ==> r.value.idCrabi == id && r.value.description == catalog[id]
  {
    if id in catalog then Some(Vehicle(id, catalog[id])) else None
  }

  /** No two records share an `id_crabi`. */
  predicate UniqueIds(vs: set<Vehicle>) {
    forall a, b :: a in vs && b in vs && a.idCrabi == b.idCrabi ==> a == b
  }

  /** Every record comes from the catalogue. */
  predicate Stored(catalog: Catalog, vs: set<Vehicle>) {
    forall v :: v in vs ==> v.idCrabi in catalog && catalog[v.idCrabi] == v.description
  }

  /**
   * `get_by_crabi_ids`: the records whose id was asked for, each once,
   * in no particular order; nothing for an empty request.
   */
  function GetByCrabiIds(catalog: Catalog, ids: seq<string>): (r: set<Vehicle>)
    ensures ids == [] ==> r == {}
    ensures forall v :: v in r <==> v.idCrabi in ids && v.idCrabi in catalog && v.description == catalog[v.idCrabi]
    ensures UniqueIds(r) && Stored(catalog, r)
  {
    if ids == [] then {}
    else set id | id in ids && id in catalog :: Vehicle(id, catalog[id])
  }

  // ---------------------------------------------------------------------
  // The two bands
  // ---------------------------------------------------------------------

  /** `r.get('score', 0)`: a hit without a score counts as 0. */
  function Score(h: Hit): (r: real)
    ensures h.score.Some? ==> r == h.score.value
    ensures h.score.None? ==> r == 0.0
  {
    h.score.GetOr(0.0)
  }

  predicate InHighBand(h: Hit, cfg: Config) {
    Score(h) >= cfg.threshold
  }

  predicate InBestEffortBand(h: Hit, cfg: Config) {
    cfg.bestEffort <= Score(h) < cfg.threshold
  }

  /** A list comprehension with a condition: the hits that satisfy `keep`, in their order. */
  function Filter(hits: seq<Hit>, keep: Hit -> bool): (r: seq<Hit>)
    ensures |r| <= |hits|
    ensures forall h :: h in r <==> h in hits && keep(h)
  {
    if hits == [] then []
    else (if keep(hits[0]) then [hits[0]] else []) + Filter(hits[1..], keep)
  }

  /** Filtering a concatenation filters each part: the hits keep the order they were retrieved in. */
  lemma {:induction false} FilterAppend(a: seq<Hit>, b: seq<Hit>, keep: Hit -> bool)
    ensures Filter(a + b, keep) == Filter(a, keep) + Filter(b, keep)
    decreases |a|
  {
    if a != [] {
      assert (a + b)[0] == a[0] && (a + b)[1..] == a[1..] + b;
      FilterAppend(a[1..], b, keep);
    } else {
      assert a + b == b;
    }
  }

  /** Lines 72-75: the hits scoring at least `threshold`. */
  function HighBand(hits: seq<Hit>, cfg: Config): (r: seq<Hit>)
    ensures forall h :: h in r <==> h in hits && Score(h) >= cfg.threshold
  {
    Filter(hits, h => InHighBand(h, cfg))
  }

  /** Lines 77-80: the hits scoring at least `bestEffort` but below `threshold`; none is in the high band. */
  function BestEffortBand(hits: seq<Hit>, cfg: Config): (r: seq<Hit>)
    ensures forall h :: h in r <==> h in hits && cfg.bestEffort <= Score(h) < cfg.threshold
    ensures forall h :: h in r ==> h !in HighBand(hits, cfg)
  {
    Filter(hits, h => InBestEffortBand(h, cfg))
  }

  /** Each band of a concatenation is the bands of the parts, in order. */
  lemma BandsKeepOrder(a: seq<Hit>, b: seq<Hit>, cfg: Config)
    ensures HighBand(a + b, cfg) == HighBand(a, cfg) + HighBand(b, cfg)
    ensures BestEffortBand(a + b, cfg) == BestEffortBand(a, cfg) + BestEffortBand(b, cfg)
  {
    FilterAppend(a, b, h => InHighBand(h, cfg));
    FilterAppend(a, b, h => InBestEffortBand(h, cfg));
  }

  /** Line 88: every hit above the best-effort threshold, the high band first. */
  function AllCandidates(hits: seq<Hit>, cfg: Config): (r: seq<Hit>)
    ensures HighBand(hits, cfg) <= r
    ensures forall h :: h in r <==> h in hits && (Score(h) >= cfg.threshold || cfg.bestEffort <= Score(h))
  {
    HighBand(hits, cfg) + BestEffortBand(hits, cfg)
  }

  /** A candidate scores at least the lower of the two thresholds: at least 0.70 with the default values. */
  lemma CandidateScore(hits: seq<Hit>, cfg: Config, h: Hit)
    requires h in AllCandidates(hits, cfg)
    ensures h in hits
    ensures Score(h) >= cfg.threshold || Score(h) >= cfg.bestEffort
  {
  }

  /**
   * Lines 106-115: strict mode sends every candidate, two or more high
   * hits send only those, and otherwise every candidate is sent.
   */
  function CandidateHits(strict: bool, high: seq<Hit>, best: seq<Hit>): (r: seq<Hit>)
    ensures forall h :: h in r ==> h in high || h in best
    ensures high <= r
    ensures best != [] && (strict || |high| < 2) ==> forall h :: h in best ==> h in r
    ensures !strict && |high| >= 2 ==> r == high
  {
    if strict then high + best
    else if |high| >= 2 then high
    else high + best
  }

  /** Line 117: the ids of the hits, in order. */
  function Ids(hits: seq<Hit>): (r: seq<string>)
    ensures |r| == |hits|
    ensures forall k :: 0 <= k < |hits| ==> r[k] == hits[k].id
  {
    seq(|hits|, k requires 0 <= k < |hits| => hits[k].id)
  }

  // ---------------------------------------------------------------------
  // Arbitration
  // ---------------------------------------------------------------------

  /** Lines 127-130: one option per record, with its id and description. */
  function OptionsOf(vs: set<Vehicle>): (r: set<VehicleOption>)
    ensures forall o :: o in r <==> Vehicle(o.id, o.description) in vs
  {
    set v | v in vs :: VehicleOption(v.idCrabi, v.description)
  }

  /** The arbitration model is shown exactly one option per record. */
  lemma {:induction false} OptionsCount(vs: set<Vehicle>)
    ensures |OptionsOf(vs)| == |vs|
    decreases |vs|
  {
    if vs != {} {
      var v :| v in vs;
      var rest := vs - {v};
      OptionsCount(rest);
      var o := VehicleOption(v.idCrabi, v.description);
      assert OptionsOf(vs) == OptionsOf(rest) + {o};
      assert o !in OptionsOf(rest);
    }
  }

  /**
   * `LLMService.match_vehicle` (app/services/llm_service.py:201-207): no
   * options give no selection; otherwise the model's verdict, whatever it is.
   */
  function MatchVehicle(userDescription: string, options: set<VehicleOption>, verdict: Option<string>): (r: Option<string>)
    ensures options == {} ==> r.None?
    ensures options != {} ==> r == verdict
  {
    if options == {} then None else verdict
  }

  /** Lines 150-153: the record among `vs` with the selected id, if there is one. */
  function FindById(vs: set<Vehicle>, id: string): (r: Option<Vehicle>)
    requires UniqueIds(vs)
    ensures r.Some? ==> r.value in vs && r.value.idCrabi == id
    ensures r.None? ==> forall v :: v in vs ==> v.idCrabi != id
  {
    if exists v :: v in vs && v.idCrabi == id then
      var v :| v in vs && v.idCrabi == id;
      Some(v)
    else None
  }

  // ---------------------------------------------------------------------
  // The decision procedure
  // ---------------------------------------------------------------------

  /**
   * Lines 127-162: the arbitration model is shown the resolved records and
   * the original description; its selection counts only when it names one
   * of those records.
   */
  function Arbitration(description: string, vehicles: set<Vehicle>, verdict: Option<string>): (r: Outcome)
    requires UniqueIds(vehicles)
    ensures r.calls == [Arbitrate(description, OptionsOf(vehicles))]
    ensures r.vehicle.Some? <==> verdict.Some? && exists v :: v in vehicles && v.idCrabi == verdict.value
    ensures r.vehicle.Some? ==> r.vehicle.value in vehicles && r.vehicle.value.idCrabi == verdict.value
  {
    var options := OptionsOf(vehicles);
    assert vehicles != {} ==> options != {} by {
      if vehicles != {} {
        var v :| v in vehicles;
        assert VehicleOption(v.idCrabi, v.description) in options;
      }
    }
    var selected := MatchVehicle(description, options, verdict);
    var calls := [Arbitrate(description, options)];
    if selected.None? then Outcome(None, calls)
    else Outcome(FindById(vehicles, selected.value), calls)
  }

  /** Lines 117-162: the candidates' ids are looked up together; no record found means no match. */
  function Resolve(description: string, catalog: Catalog, candidates: seq<Hit>, verdict: Option<string>): (r: Outcome)
    ensures |r.calls| >= 1 && r.calls[0] == LookupMany(Ids(candidates))
    ensures forall k :: 0 <= k < |r.calls| ==> !r.calls[k].VectorQuery? && !r.calls[k].LookupOne?
    ensures forall k :: 0 <= k < |r.calls| && r.calls[k].Arbitrate? ==> r.calls[k].userDescription == description
    ensures r.vehicle.Some? ==>
      && r.vehicle.value.idCrabi in catalog
      && catalog[r.vehicle.value.idCrabi] == r.vehicle.value.description
      && exists h :: h in candidates && h.id == r.vehicle.value.idCrabi
  {
    var ids := Ids(candidates);
    var vehicles := GetByCrabiIds(catalog, ids);
    if vehicles == {} then Outcome(None, [LookupMany(ids)])
    else
      var decided := Arbitration(description, vehicles, verdict);
      if decided.vehicle.Some? then
        var v := decided.vehicle.value;
        var k :| 0 <= k < |ids| && ids[k] == v.idCrabi;
        assert candidates[k] in candidates;
        Outcome(decided.vehicle, [LookupMany(ids)] + decided.calls)
      else Outcome(None, [LookupMany(ids)] + decided.calls)
  }

  /**
   * Lines 72-162 on a non-empty list of hits: no candidate means no match,
   * a single high hit outside strict mode is looked up on its own, and
   * otherwise the candidates chosen by priority go to `Resolve`.
   */
  function Triage(description: string, strict: bool, cfg: Config, catalog: Catalog,
                  hits: seq<Hit>, verdict: Option<string>): (r: Outcome)
    ensures forall k :: 0 <= k < |r.calls| ==> !r.calls[k].VectorQuery?
    ensures forall k :: 0 <= k < |r.calls| && r.calls[k].Arbitrate? ==> r.calls[k].userDescription == description
    ensures r.vehicle.Some? ==>
      && r.vehicle.value.idCrabi in catalog
      && catalog[r.vehicle.value.idCrabi] == r.vehicle.value.description
      && exists h :: h in AllCandidates(hits, cfg) && h.id == r.vehicle.value.idCrabi
  {
    var high, best := HighBand(hits, cfg), BestEffortBand(hits, cfg);
    if high + best == [] then Outcome(None, [])
    else if !strict && |high| == 1 then
      assert high[0] in AllCandidates(hits, cfg);
      Outcome(GetVehicleByCrabiId(catalog, high[0].id), [LookupOne(high[0].id)])
    else
      var candidates := CandidateHits(strict, high, best);
      var resolved := Resolve(description, catalog, candidates, verdict);
      assert forall h :: h in candidates ==> h in AllCandidates(hits, cfg);
      resolved
  }

  /**
   * Lines 36-162. `response` is what the vector store returned for the
   * normalised description (`None` for a missing answer), and `verdict`
   * what the arbitration model would select if asked. The normalised text
   * goes only to the vector query; the arbitration model sees the original
   * description. A returned record is a stored record whose id was among
   * the candidate hits.
   */
  function GetSimilarVehicles(description: string, strict: bool, cfg: Config, catalog: Catalog,
                              response: Option<seq<Hit>>, verdict: Option<string>): (r: Outcome)
    ensures |r.calls| >= 1 && r.calls[0] == VectorQuery(Normalize.Normalize(description, true), cfg.topK)
    ensures forall k :: 1 <= k < |r.calls| ==> !r.calls[k].VectorQuery?
    ensures forall k :: 0 <= k < |r.calls| && r.calls[k].Arbitrate? ==> r.calls[k].userDescription == description
    ensures r.vehicle.Some? ==>
      && r.vehicle.value.idCrabi in catalog
      && catalog[r.vehicle.value.idCrabi] == r.vehicle.value.description
      && response.Some?
      && exists h :: h in AllCandidates(response.value, cfg) && h.id == r.vehicle.value.idCrabi
  {
    var asked := [VectorQuery(Normalize.Normalize(description, true), cfg.topK)];
    if response.None? || response.value == [] then Outcome(None, asked)
    else
      var decided := Triage(description, strict, cfg, catalog, response.value, verdict);
      Outcome(decided.vehicle, asked + decided.calls)
  }

  // ---------------------------------------------------------------------
  // Properties of the decision procedure
  // ---------------------------------------------------------------------

  /** Lines 67-69: a missing or empty answer gives no match, with no lookup and no arbitration. */
  lemma EmptyResponse(description: string, strict: bool, cfg: Config, catalog: Catalog,
                      response: Option<seq<Hit>>, verdict: Option<string>)
    requires response.None? || response == Some([])
    ensures var r := GetSimilarVehicles(description, strict, cfg, catalog, response, verdict);
      r.vehicle.None? && r.calls == [VectorQuery(Normalize.Normalize(description, true), cfg.topK)]
  {
  }

  /** A hit below both thresholds is no candidate; a list of such hits leaves no candidate. */
  lemma NoCandidateBelow(hits: seq<Hit>, cfg: Config)
    ensures (forall h :: h in hits ==> Score(h) < cfg.threshold && Score(h) < cfg.bestEffort)
      ==> AllCandidates(hits, cfg) == []
  {
    if AllCandidates(hits, cfg) != [] {
      CandidateScore(hits, cfg, AllCandidates(hits, cfg)[0]);
    }
  }

  /** Lines 88-91: when no hit reaches either threshold there is no match, no lookup and no arbitration. */
  lemma NoCandidates(description: string, strict: bool, cfg: Config, catalog: Catalog,
                     hits: seq<Hit>, verdict: Option<string>)
    requires forall h :: h in hits ==> Score(h) < cfg.threshold && Score(h) < cfg.bestEffort
    ensures var r := GetSimilarVehicles(description, strict, cfg, catalog, Some(hits), verdict);
      r.vehicle.None? && r.calls == [VectorQuery(Normalize.Normalize(description, true), cfg.topK)]
  {
    NoCandidateBelow(hits, cfg);
  }

  /**
   * Lines 94-103: outside strict mode a single high hit is looked up on its
   * own and returned if stored; the arbitration model is not asked, even
   * when best-effort hits exist.
   */
  lemma FastPath(description: string, cfg: Config, catalog: Catalog, hits: seq<Hit>, verdict: Option<string>)
    requires |HighBand(hits, cfg)| == 1
    ensures var id := HighBand(hits, cfg)[0].id;
      var r := GetSimilarVehicles(description, false, cfg, catalog, Some(hits), verdict);
      && r.vehicle == GetVehicleByCrabiId(catalog, id)
      && r.calls == [VectorQuery(Normalize.Normalize(description, true), cfg.topK), LookupOne(id)]
  {
    assert HighBand(hits, cfg)[0] in hits;
  }

  /** The record the verdict names, when it names a stored record among the ids looked up. */
  function Selected(catalog: Catalog, ids: seq<string>, verdict: Option<string>): (r: Option<Vehicle>)
    ensures r.Some? <==> verdict.Some? && verdict.value in ids && verdict.value in catalog
    ensures r.Some? ==> r == GetVehicleByCrabiId(catalog, verdict.value)
  {
    match verdict
    case Some(id) => if id in ids && id in catalog then Some(Vehicle(id, catalog[id])) else None
    case None => None
  }

  /**
   * Lines 117-162: the bulk lookup of the candidates' ids comes first; the
   * arbitration model is asked only when some record was found, with the
   * original description and one option per record; and the result is the
   * found record it selects, or nothing.
   */
  lemma ResolveOutcome(description: string, catalog: Catalog, candidates: seq<Hit>, verdict: Option<string>)
    ensures var ids := Ids(candidates);
      var vehicles := GetByCrabiIds(catalog, ids);
      var r := Resolve(description, catalog, candidates, verdict);
      && r.calls == [LookupMany(ids)] + (if vehicles == {} then [] else [Arbitrate(description, OptionsOf(vehicles))])
      && r.vehicle == Selected(catalog, ids, verdict)
  {
    var ids := Ids(candidates);
    var vehicles := GetByCrabiIds(catalog, ids);
    if vehicles != {} && verdict.Some? {
      var id := verdict.value;
      if id in ids && id in catalog {
        assert Vehicle(id, catalog[id]) in vehicles;
      }
    }
  }

  /**
   * Lines 105-120: whenever the fast path is not taken and some hit is a
   * candidate, the ids looked up are the candidates' by priority (only the
   * high band when two or more high hits arrive outside strict mode), and
   * what follows is `Resolve` on them.
   */
  lemma SlowPath(description: string, strict: bool, cfg: Config, catalog: Catalog,
                 hits: seq<Hit>, verdict: Option<string>)
    requires AllCandidates(hits, cfg) != []
    requires strict || |HighBand(hits, cfg)| != 1
    ensures var high, best := HighBand(hits, cfg), BestEffortBand(hits, cfg);
      var candidates := if !strict && |high| >= 2 then high else high + best;
      var r := GetSimilarVehicles(description, strict, cfg, catalog, Some(hits), verdict);
      r == Outcome(Resolve(description, catalog, candidates, verdict).vehicle,
                   [VectorQuery(Normalize.Normalize(description, true), cfg.topK)]
                   + Resolve(description, catalog, candidates, verdict).calls)
  {
    var h := AllCandidates(hits, cfg)[0];
    assert h in hits;
  }

  /** Strict mode asks the arbitration model even about a single high hit, once its record is found. */
  lemma StrictReachesOracle(description: string, cfg: Config, catalog: Catalog, hits: seq<Hit>, verdict: Option<string>)
    requires |HighBand(hits, cfg)| == 1 && HighBand(hits, cfg)[0].id in catalog
    ensures var r := GetSimilarVehicles(description, true, cfg, catalog, Some(hits), verdict);
      exists k :: 0 <= k < |r.calls| && r.calls[k].Arbitrate?
  {
    var high, best := HighBand(hits, cfg), BestEffortBand(hits, cfg);
    var ids := Ids(high + best);
    var id := high[0].id;
    assert ids[0] == id;
    assert Vehicle(id, catalog[id]) in GetByCrabiIds(catalog, ids);
    SlowPath(description, true, cfg, catalog, hits, verdict);
    ResolveOutcome(description, catalog, high + best, verdict);
    var r := GetSimilarVehicles(description, true, cfg, catalog, Some(hits), verdict);
    assert r.calls[2].Arbitrate?;
  }

  /** With the default thresholds a returned record's id was retrieved with a score of at least 0.70. */
  lemma ReturnedIdWasRetrieved(description: string, strict: bool, catalog: Catalog,
                               response: Option<seq<Hit>>, verdict: Option<string>)
    ensures var r := GetSimilarVehicles(description, strict, DefaultConfig, catalog, response, verdict);
      r.vehicle.Some? ==>
        && response.Some?
        && r.vehicle.value == Vehicle(r.vehicle.value.idCrabi, catalog[r.vehicle.value.idCrabi])
        && exists h :: h in response.value && h.id == r.vehicle.value.idCrabi && Score(h) >= 0.70
  {
    var r := GetSimilarVehicles(description, strict, DefaultConfig, catalog, response, verdict);
    if r.vehicle.Some? {
      var h :| h in AllCandidates(response.value, DefaultConfig) && h.id == r.vehicle.value.idCrabi;
      CandidateScore(response.value, DefaultConfig, h);
    }
  }

  // ---------------------------------------------------------------------
  // Scenarios
  // ---------------------------------------------------------------------

  /** One high hit, one best-effort hit, one below both thresholds and one without a score. */
  const SampleHits: seq<Hit> := [Hit("V1", Some(0.92)), Hit("V2", Some(0.78)), Hit("V3", Some(0.50)), Hit("V4", None)]

  /** Scores split into the two bands; a hit without a score counts as 0 and falls in neither. */
  lemma SampleBands()
    ensures HighBand(SampleHits, DefaultConfig) == [SampleHits[0]]
    ensures BestEffortBand(SampleHits, DefaultConfig) == [SampleHits[1]]
  {
    var hs := SampleHits;
    assert hs[1..][1..][1..][1..] == [];
  }
}
