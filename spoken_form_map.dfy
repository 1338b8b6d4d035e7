/**
 * Spoken form maps: for each type of spoken form, a map from the identifiers
 * of that type to an entry. `mapSpokenForms` turns a map of one kind of entry
 * into a map of another, entry by entry.
 */
module SpokenFormMap {

  datatype SpokenFormType =
    | PairedDelimiter
    | SimpleScopeTypeType
    | SurroundingPairForceDirection
    | SimpleModifier
    | ModifierExtra
    | CustomRegex

  /** The types whose maps may leave identifiers out: only `customRegex`, whose identifiers are any strings. */
  predicate IsPartial(t: SpokenFormType) {
    t == CustomRegex
  }

  function AllSpokenFormTypes(): set<SpokenFormType> {
    {PairedDelimiter, SimpleScopeTypeType, SurroundingPairForceDirection, SimpleModifier, ModifierExtra, CustomRegex}
  }

  /**
   * Whether `m` has the shape of a spoken form mapping: every type present;
   * a total type maps exactly its identifiers (`ids(t)`), the partial type any
   * of them. `ids` gives the identifiers of each type.
   */
  predicate WellFormed<T>(m: map<SpokenFormType, map<string, T>>, ids: SpokenFormType -> set<string>) {
    m.Keys == AllSpokenFormTypes() &&
    (forall t :: t in m && !IsPartial(t) ==> m[t].Keys == ids(t)) &&
    (forall t :: t in m && IsPartial(t) ==> m[t].Keys <= ids(t))
  }

  /**
   * `mapSpokenForms`: the same spoken form types, the same identifiers within
   * each, and each entry replaced by `mapper(entry, type, id)`.
   */
  function MapSpokenForms<I, O>(input: map<SpokenFormType, map<string, I>>,
                                mapper: (I, SpokenFormType, string) -> O)
    : (r: map<SpokenFormType, map<string, O>>)
    ensures r.Keys == input.Keys
    ensures forall t :: t in r ==> r[t].Keys == input[t].Keys
    ensures forall t, id :: t in r && id in r[t] ==> r[t][id] == mapper(input[t][id], t, id)
  {
    map t | t in input :: MapEntries(input[t], t, mapper)
  }

  function MapEntries<I, O>(entries: map<string, I>, t: SpokenFormType, mapper: (I, SpokenFormType, string) -> O)
    : (r: map<string, O>)
    ensures r.Keys == entries.Keys
    ensures forall id :: id in r ==> r[id] == mapper(entries[id], t, id)
  {
    map id | id in entries :: mapper(entries[id], t, id)
  }

  /** The result of mapping has the shape of a spoken form mapping whenever the input does. */
  lemma MapKeepsShape<I, O>(input: map<SpokenFormType, map<string, I>>, mapper: (I, SpokenFormType, string) -> O,
                            ids: SpokenFormType -> set<string>)
    requires WellFormed(input, ids)
    ensures WellFormed(MapSpokenForms(input, mapper), ids)
  {
  }

  /** Mapping with a mapper that returns its entry gives back the input. */
  lemma MapIdentity<I>(input: map<SpokenFormType, map<string, I>>)
    ensures MapSpokenForms(input, (x: I, t: SpokenFormType, id: string) => x) == input
  {
    var r := MapSpokenForms(input, (x: I, t: SpokenFormType, id: string) => x);
    forall t | t in input ensures r[t] == input[t] {
    }
  }

  /** Mapping twice is mapping once with the two mappers composed. */
  lemma MapCompose<A, B, C>(input: map<SpokenFormType, map<string, A>>,
                            f: (A, SpokenFormType, string) -> B, g: (B, SpokenFormType, string) -> C)
    ensures MapSpokenForms(MapSpokenForms(input, f), g) ==
            MapSpokenForms(input, (x: A, t: SpokenFormType, id: string) => g(f(x, t, id), t, id))
  {
    var h := (x: A, t: SpokenFormType, id: string) => g(f(x, t, id), t, id);
    var left := MapSpokenForms(MapSpokenForms(input, f), g);
    var right := MapSpokenForms(input, h);
    forall t | t in input ensures left[t] == right[t] {
    }
  }
}
