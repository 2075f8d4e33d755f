/**
 The process-wide registry of Ajtai public parameters.  Each method of `PpRegistry` is one section
 under the lock; `Next` interleaves those sections with loader threads, which read a seed, compute
 outside the lock and write back later.
 */
module Registry {
  import opened Vectors
  import opened Ring
  import opened Ajtai
  import opened Streaming

  datatype Option<+T> = None | Some(value: T)

  datatype Key = Key(d: nat, m: nat)

  datatype Entry = Entry(kappa: nat, seed: Option<Seed>, pp: Option<PP>)

  type Entries = map<Key, Entry>

  datatype RegistryError =
    | SeedAlreadyRegistered
    | KappaMismatch
    | SeedMismatchLoaded
    | LoadedWithoutSeed
    | SeedMismatch
    | NotSeeded
    | NotInitialized
    | SetupFailed

  datatype Outcome<+T> = Good(value: T) | Bad(error: RegistryError)

  // ----- the sections under the lock, as functions of the map -----

  function SetPp(e: Entries, pp: PP): (Entries, Outcome<()>) {
    var key := Key(pp.d, pp.m);
    if key in e then
      if e[key].seed.Some? then (e, Bad(SeedAlreadyRegistered)) else (e, Good(()))
    else (e[key := Entry(pp.kappa, None, Some(pp))], Good(()))
  }

  function SetSeeded(e: Entries, d: nat, kappa: nat, m: nat, seed: Seed): (Entries, Outcome<()>) {
    var key := Key(d, m);
    if key !in e then (e[key := Entry(kappa, Some(seed), None)], Good(()))
    else
      var entry := e[key];
      if entry.pp.Some? then
        if entry.seed.None? then (e, Bad(LoadedWithoutSeed))
        else if entry.seed.value != seed then (e, Bad(SeedMismatchLoaded))
        else if entry.kappa != kappa || entry.pp.value.kappa != kappa then (e, Bad(KappaMismatch))
        else (e, Good(()))
      else if entry.seed.Some? then
        if entry.seed.value != seed then (e, Bad(SeedMismatch))
        else if entry.kappa != kappa then (e, Bad(KappaMismatch))
        else (e, Good(()))
      else (e[key := Entry(kappa, Some(seed), None)], Good(()))
  }

  function Unload(e: Entries, d: nat, m: nat): (Entries, Outcome<bool>) {
    var key := Key(d, m);
    if key !in e then (e, Good(false))
    else if e[key].seed.None? then (e, Bad(NotSeeded))
    else (e[key := e[key].(pp := None)], Good(e[key].pp.Some?))
  }

  function ReadLoaded(e: Entries, d: nat, m: nat): Option<PP> {
    if Key(d, m) in e then e[Key(d, m)].pp else None
  }

  function ReadSeed(e: Entries, d: nat, m: nat): Outcome<(Seed, nat)> {
    var key := Key(d, m);
    if key !in e then Bad(NotInitialized)
    else if e[key].seed.None? then Bad(NotSeeded)
    else Good((e[key].seed.value, e[key].kappa))
  }

  function WriteLoaded(e: Entries, d: nat, m: nat, seed: Seed, kappa: nat, pp: PP): Entries {
    e[Key(d, m) := Entry(kappa, Some(seed), Some(pp))]
  }

  // ----- meaning -----

  function SetupOf(prg: Prg, d: nat, kappa: nat, m: nat, seed: Seed): PP {
    PP(d, kappa, m, SetupRows(prg, seed, kappa, m))
  }

  /** The parameters an entry stands for, whether or not they are in memory. */
  function Meaning(prg: Prg, key: Key, entry: Entry): PP {
    if entry.pp.Some? then entry.pp.value
    else if entry.seed.Some? then SetupOf(prg, key.d, entry.kappa, key.m, entry.seed.value)
    else PP(key.d, entry.kappa, key.m, [])
  }

  ghost predicate EntryOk(prg: Prg, key: Key, entry: Entry) {
    && (entry.seed.Some? || entry.pp.Some?)
    && (entry.pp.Some? ==>
          entry.pp.value.Valid() && key == Key(entry.pp.value.d, entry.pp.value.m) && entry.kappa == entry.pp.value.kappa)
    && (entry.seed.Some? && entry.pp.Some? ==>
          entry.pp.value == SetupOf(prg, key.d, entry.kappa, key.m, entry.seed.value))
  }

  ghost predicate EntriesOk(prg: Prg, e: Entries) {
    forall key :: key in e ==> EntryOk(prg, key, e[key])
  }

  /** Nothing is removed, no kappa or seed changes, and every entry keeps standing for the same parameters. */
  ghost predicate Extends(prg: Prg, e: Entries, f: Entries) {
    forall key :: key in e ==>
      key in f && f[key].kappa == e[key].kappa && f[key].seed == e[key].seed
      && Meaning(prg, key, f[key]) == Meaning(prg, key, e[key])
  }

  // ----- loader threads -----

  datatype Loader =
    | Missed(d: nat, m: nat)
    | HasSeed(d: nat, m: nat, seed: Seed, kappa: nat)
    | Computed(d: nat, m: nat, seed: Seed, kappa: nat, pp: PP)
    | Loaded(d: nat, m: nat, pp: PP)
    | Failed(error: RegistryError)

  datatype State = State(entries: Entries, loaders: map<nat, Loader>)

  /** Parameters as the program holds them: of dimension 54 and of the shape they declare. */
  type LoadedPp = pp: PP | pp.Valid() witness PP(D, 0, 0, [])

  datatype Action =
    | DoSetPp(pp: LoadedPp)
    | DoSetSeeded(d: nat, kappa: nat, m: nat, seed: Seed)
    | DoUnload(d: nat, m: nat)
    | Begin(t: nat, d: nat, m: nat)
    | Advance(t: nat)

  /** One step of a loader: a read section, the computation outside the lock, or the write section. */
  function AdvanceLoader(prg: Prg, e: Entries, l: Loader): (Entries, Loader) {
    match l
    case Missed(d, m) =>
      (match ReadSeed(e, d, m)
       case Bad(error) => (e, Failed(error))
       case Good(found) => (e, HasSeed(d, m, found.0, found.1)))
    case HasSeed(d, m, seed, kappa) =>
      if d != D then (e, Failed(SetupFailed))
      else (e, Computed(d, m, seed, kappa, SetupOf(prg, d, kappa, m, seed)))
    case Computed(d, m, seed, kappa, pp) => (WriteLoaded(e, d, m, seed, kappa, pp), Loaded(d, m, pp))
    case Loaded(_, _, _) => (e, l)
    case Failed(_) => (e, l)
  }

  function BeginLoader(e: Entries, d: nat, m: nat): Loader {
    match ReadLoaded(e, d, m)
    case Some(pp) => Loaded(d, m, pp)
    case None => Missed(d, m)
  }

  function Next(prg: Prg, s: State, a: Action): State {
    match a
    case DoSetPp(pp) => s.(entries := SetPp(s.entries, pp).0)
    case DoSetSeeded(d, kappa, m, seed) => s.(entries := SetSeeded(s.entries, d, kappa, m, seed).0)
    case DoUnload(d, m) => s.(entries := Unload(s.entries, d, m).0)
    case Begin(t, d, m) => s.(loaders := s.loaders[t := BeginLoader(s.entries, d, m)])
    case Advance(t) =>
      if t in s.loaders then
        var (e, l) := AdvanceLoader(prg, s.entries, s.loaders[t]);
        State(e, s.loaders[t := l])
      else s
  }

  ghost predicate LoaderOk(prg: Prg, e: Entries, l: Loader) {
    match l
    case HasSeed(d, m, seed, kappa) =>
      Key(d, m) in e && e[Key(d, m)].seed == Some(seed) && e[Key(d, m)].kappa == kappa
    case Computed(d, m, seed, kappa, pp) =>
      d == D && Key(d, m) in e && e[Key(d, m)].seed == Some(seed) && e[Key(d, m)].kappa == kappa
      && pp == SetupOf(prg, d, kappa, m, seed)
    case Loaded(d, m, pp) => Key(d, m) in e && pp == Meaning(prg, Key(d, m), e[Key(d, m)])
    case _ => true
  }

  ghost predicate Inv(prg: Prg, s: State) {
    EntriesOk(prg, s.entries) && forall t :: t in s.loaders ==> LoaderOk(prg, s.entries, s.loaders[t])
  }

  lemma LoaderOkStable(prg: Prg, e: Entries, f: Entries, l: Loader)
    requires LoaderOk(prg, e, l) && Extends(prg, e, f)
    ensures LoaderOk(prg, f, l)
  {}

  lemma EntriesStep(prg: Prg, s: State, a: Action)
    requires Inv(prg, s)
    ensures EntriesOk(prg, Next(prg, s, a).entries)
    ensures Extends(prg, s.entries, Next(prg, s, a).entries)
  {
    var e := s.entries;
    match a
    case DoSetPp(pp) =>
    case DoSetSeeded(d, kappa, m, seed) =>
      assert forall key :: key in e ==> EntryOk(prg, key, e[key]);
    case DoUnload(d, m) =>
      assert Key(d, m) in e ==> EntryOk(prg, Key(d, m), e[Key(d, m)]);
    case Begin(t, d, m) =>
    case Advance(t) =>
      if t in s.loaders && s.loaders[t].Computed? {
        var l := s.loaders[t];
        assert LoaderOk(prg, e, l);
        assert EntryOk(prg, Key(l.d, l.m), e[Key(l.d, l.m)]);
      }
  }

  /** Every step of every thread keeps the invariant and extends the map without changing any meaning. */
  lemma StepIsSafe(prg: Prg, s: State, a: Action)
    requires Inv(prg, s)
    ensures Inv(prg, Next(prg, s, a))
    ensures Extends(prg, s.entries, Next(prg, s, a).entries)
  {
    var s' := Next(prg, s, a);
    EntriesStep(prg, s, a);
    forall t | t in s'.loaders
      ensures LoaderOk(prg, s'.entries, s'.loaders[t])
    {
      if t in s.loaders {
        LoaderOkStable(prg, s.entries, s'.entries, s.loaders[t]);
      }
      if a == Advance(t) {
        assert t in s.loaders && LoaderOk(prg, s.entries, s.loaders[t]);
      }
    }
  }

  // ----- runs -----

  function Run(prg: Prg, s: State, actions: seq<Action>): State
    decreases |actions|
  {
    if actions == [] then s else Run(prg, Next(prg, s, actions[0]), actions[1..])
  }

  const INITIAL: State := State(map[], map[])

  lemma InitialIsSafe(prg: Prg)
    ensures Inv(prg, INITIAL)
  {}

  lemma {:induction false} RunIsSafe(prg: Prg, s: State, actions: seq<Action>)
    requires Inv(prg, s)
    ensures Inv(prg, Run(prg, s, actions))
    ensures Extends(prg, s.entries, Run(prg, s, actions).entries)
    decreases |actions|
  {
    if actions != [] {
      StepIsSafe(prg, s, actions[0]);
      RunIsSafe(prg, Next(prg, s, actions[0]), actions[1..]);
    }
  }

  datatype Answer<+T> = Answers(value: T) | Panics

  ghost predicate HasShape(z: seq<Vec>, d: nat, m: nat) {
    |z| == d && forall t :: 0 <= t < d ==> |z[t]| == m
  }

  /** The parameters that commitments through a Global(d, m) handle use: loaded ones first, else the seed. */
  ghost function CommitRows(prg: Prg, e: Entries, d: nat, m: nat): Answer<seq<seq<Rq>>> {
    var key := Key(d, m);
    if key !in e || d != D then Panics
    else if e[key].pp.Some? then
      if e[key].pp.value.Valid() && e[key].pp.value.m == m then Answers(e[key].pp.value.rows) else Panics
    else if e[key].seed.Some? then Answers(SetupRows(prg, e[key].seed.value, e[key].kappa, m))
    else Panics
  }

  /** The answer of `commit`: it panics on other shapes, unregistered parameters and dimensions other than 54. */
  ghost function CommitAnswer(prg: Prg, e: Entries, d: nat, m: nat, z: seq<Vec>): Answer<Commitment> {
    var rows := CommitRows(prg, e, d, m);
    if rows.Answers? && HasShape(z, d, m) && SameLength(rows.value, m)
    then Answers(CommitSpec(rows.value, ColumnsOfRows(z, m))) else Panics
  }

  /** The answer of `commit_many`: nothing to commit always succeeds, and one bad shape spoils the rest. */
  ghost function CommitManyAnswer(prg: Prg, e: Entries, d: nat, m: nat, zs: seq<seq<Vec>>): Answer<seq<Commitment>> {
    if AllAnswer(prg, e, d, m, zs) then Answers(Values(prg, e, d, m, zs)) else Panics
  }

  ghost predicate AllAnswer(prg: Prg, e: Entries, d: nat, m: nat, zs: seq<seq<Vec>>) {
    forall k :: 0 <= k < |zs| ==> CommitAnswer(prg, e, d, m, zs[k]).Answers?
  }

  ghost function Values(prg: Prg, e: Entries, d: nat, m: nat, zs: seq<seq<Vec>>): (cs: seq<Commitment>)
    requires AllAnswer(prg, e, d, m, zs)
    ensures |cs| == |zs| && forall k :: 0 <= k < |zs| ==> CommitAnswer(prg, e, d, m, zs[k]) == Answers(cs[k])
  {
    seq(|zs|, k requires 0 <= k < |zs| => CommitAnswer(prg, e, d, m, zs[k]).value)
  }

  /** Once (d, m) is registered, commitments answer exactly for d = 54 and witnesses of that shape. */
  lemma AnswersExactly(prg: Prg, e: Entries, d: nat, m: nat, z: seq<Vec>)
    requires EntriesOk(prg, e)
    ensures CommitAnswer(prg, e, d, m, z).Answers? <==> Key(d, m) in e && d == D && HasShape(z, d, m)
  {
    if Key(d, m) in e {
      assert EntryOk(prg, Key(d, m), e[Key(d, m)]);
    }
  }

  /**
   Commitments never change: once (d, m) is registered, every interleaving of registrations, unloads
   and stale loaders leaves the answer for every witness, and every list of witnesses, as it was.
   */
  lemma CommitmentsNeverChange(prg: Prg, before: seq<Action>, after: seq<Action>, d: nat, m: nat, zs: seq<seq<Vec>>)
    requires Key(d, m) in Run(prg, INITIAL, before).entries
    ensures var s := Run(prg, INITIAL, before);
            var s' := Run(prg, s, after);
            Key(d, m) in s'.entries
            && (forall k :: 0 <= k < |zs| ==>
                  CommitAnswer(prg, s'.entries, d, m, zs[k]) == CommitAnswer(prg, s.entries, d, m, zs[k]))
            && CommitManyAnswer(prg, s'.entries, d, m, zs) == CommitManyAnswer(prg, s.entries, d, m, zs)
            && (CommitManyAnswer(prg, s.entries, d, m, zs).Answers?
                <==> zs == [] || (d == D && forall k :: 0 <= k < |zs| ==> HasShape(zs[k], d, m)))
  {
    InitialIsSafe(prg);
    RunIsSafe(prg, INITIAL, before);
    var s := Run(prg, INITIAL, before);
    RunIsSafe(prg, s, after);
    var s' := Run(prg, s, after);
    SameRows(prg, s.entries, s'.entries, d, m);
    forall k | 0 <= k < |zs|
      ensures CommitAnswer(prg, s.entries, d, m, zs[k]).Answers? <==> d == D && HasShape(zs[k], d, m)
    {
      AnswersExactly(prg, s.entries, d, m, zs[k]);
    }
    hide CommitRows, HasShape, Run, CommitAnswer;
    SameMany(prg, s.entries, s'.entries, d, m, zs);
    if AllAnswer(prg, s.entries, d, m, zs) && zs != [] {
      assert CommitAnswer(prg, s.entries, d, m, zs[0]).Answers?;
    }
  }

  lemma SameMany(prg: Prg, e: Entries, f: Entries, d: nat, m: nat, zs: seq<seq<Vec>>)
    requires CommitRows(prg, f, d, m) == CommitRows(prg, e, d, m)
    ensures forall k :: 0 <= k < |zs| ==> CommitAnswer(prg, f, d, m, zs[k]) == CommitAnswer(prg, e, d, m, zs[k])
    ensures CommitManyAnswer(prg, f, d, m, zs) == CommitManyAnswer(prg, e, d, m, zs)
  {
    hide CommitRows, HasShape;
    if AllAnswer(prg, e, d, m, zs) {
      assert Values(prg, f, d, m, zs) == Values(prg, e, d, m, zs);
    }
  }

  lemma SameRows(prg: Prg, e: Entries, f: Entries, d: nat, m: nat)
    requires EntriesOk(prg, e) && EntriesOk(prg, f) && Extends(prg, e, f) && Key(d, m) in e
    ensures CommitRows(prg, f, d, m) == CommitRows(prg, e, d, m)
  {
    var key := Key(d, m);
    assert EntryOk(prg, key, e[key]) && EntryOk(prg, key, f[key]);
    assert Meaning(prg, key, f[key]) == Meaning(prg, key, e[key]);
  }

  // ----- what a registration stores -----

  /** A first seeded registration: commitments are those of the key matrix of that seed, of kappa rows. */
  lemma FirstSeeded(prg: Prg, e: Entries, d: nat, kappa: nat, m: nat, seed: Seed)
    requires Key(d, m) !in e
    ensures var (f, r) := SetSeeded(e, d, kappa, m, seed);
            && r == Good(()) && f.Keys == e.Keys + {Key(d, m)} && (forall key :: key in e ==> f[key] == e[key])
            && f[Key(d, m)] == Entry(kappa, Some(seed), None)
            && Meaning(prg, Key(d, m), f[Key(d, m)]) == PP(d, kappa, m, SetupRows(prg, seed, kappa, m))
            && forall z: seq<Vec> :: d == D && RowMajor(z, m) ==>
                 CommitAnswer(prg, f, d, m, z) == Answers(CommitSpec(SetupRows(prg, seed, kappa, m), ColumnsOfRows(z, m)))
  {
    hide SetupRow, CommitSpec, ColumnsOfRows;
  }

  /** A first registration of loaded parameters: commitments are those of their rows. */
  lemma FirstLoaded(prg: Prg, e: Entries, pp: PP)
    requires pp.Valid() && Key(pp.d, pp.m) !in e
    ensures var (f, r) := SetPp(e, pp);
            var key := Key(pp.d, pp.m);
            && r == Good(()) && f.Keys == e.Keys + {key} && (forall k :: k in e ==> f[k] == e[k])
            && f[key] == Entry(pp.kappa, None, Some(pp)) && Meaning(prg, key, f[key]) == pp
            && forall z: seq<Vec> :: RowMajor(z, pp.m) ==>
                 CommitAnswer(prg, f, pp.d, pp.m, z) == Answers(CommitSpec(pp.rows, ColumnsOfRows(z, pp.m)))
  {
    hide CommitSpec, ColumnsOfRows;
  }

  /** A second seeded registration changes nothing and succeeds exactly for the seed and kappa of the first. */
  lemma SeededAgain(prg: Prg, e: Entries, d: nat, kappa: nat, m: nat, seed: Seed)
    requires EntriesOk(prg, e) && Key(d, m) in e
    ensures var (entry, (f, r)) := (e[Key(d, m)], SetSeeded(e, d, kappa, m, seed));
            && f == e && (r == Good(()) <==> entry.seed == Some(seed) && entry.kappa == kappa)
            && (entry.seed == None ==> r == Bad(LoadedWithoutSeed))
            && (entry.seed.Some? && entry.seed != Some(seed) ==>
                  r == Bad(if entry.pp.Some? then SeedMismatchLoaded else SeedMismatch))
            && (entry.seed == Some(seed) && entry.kappa != kappa ==> r == Bad(KappaMismatch))
  {
    assert EntryOk(prg, Key(d, m), e[Key(d, m)]);
  }

  /** Loaded parameters never replace an entry, and are refused for seeded ones. */
  lemma LoadedAgain(e: Entries, pp: PP)
    requires Key(pp.d, pp.m) in e
    ensures SetPp(e, pp).0 == e
    ensures SetPp(e, pp).1 == if e[Key(pp.d, pp.m)].seed.Some? then Bad(SeedAlreadyRegistered) else Good(())
  {}

  /** Unloading forgets the loaded parameters of exactly that entry, and only if a seed restores them. */
  lemma UnloadForgets(prg: Prg, e: Entries, d: nat, m: nat)
    requires EntriesOk(prg, e)
    ensures var ((f, r), key) := (Unload(e, d, m), Key(d, m));
            && f.Keys == e.Keys && (forall k :: k in e && k != key ==> f[k] == e[k])
            && (key !in e ==> r == Good(false))
            && (key in e && e[key].seed == None ==> r == Bad(NotSeeded) && f == e)
            && (key in e && e[key].seed.Some? ==> r == Good(e[key].pp.Some?) && f[key].pp == None)
            && (key in e && e[key].seed.Some? ==>
                  Meaning(prg, key, f[key]) == SetupOf(prg, d, e[key].kappa, m, e[key].seed.value))
  {}

  /** Two loaders for the same dimensions return the same parameters, however they interleave. */
  lemma LoadersAgree(prg: Prg, actions: seq<Action>, t: nat, u: nat)
    requires t in Run(prg, INITIAL, actions).loaders && u in Run(prg, INITIAL, actions).loaders
    ensures var s := Run(prg, INITIAL, actions);
            var (a, b) := (s.loaders[t], s.loaders[u]);
            a.Loaded? && b.Loaded? && a.d == b.d && a.m == b.m ==> a.pp == b.pp
  {
    InitialIsSafe(prg);
    RunIsSafe(prg, INITIAL, actions);
    var s := Run(prg, INITIAL, actions);
    assert LoaderOk(prg, s.entries, s.loaders[t]) && LoaderOk(prg, s.entries, s.loaders[u]);
  }

  /** One loader from its first read to its end, nobody else in between. */
  function LoadAlone(d: nat, m: nat): seq<Action> { [Begin(0, d, m), Advance(0), Advance(0), Advance(0)] }

  /** What that run ends with: the parameters the entry stands for, now loaded, or the error. */
  lemma AloneLoads(prg: Prg, e: Entries, d: nat, m: nat)
    requires EntriesOk(prg, e)
    ensures var (s, key) := (Run(prg, State(e, map[]), LoadAlone(d, m)), Key(d, m));
            && (key !in e ==> s == State(e, map[0 := Failed(NotInitialized)]))
            && (key in e && e[key].pp == None && d != D ==> s == State(e, map[0 := Failed(SetupFailed)]))
            && (key in e && (e[key].pp.Some? || d == D) ==>
                  s == State(e[key := e[key].(pp := Some(Meaning(prg, key, e[key])))],
                             map[0 := Loaded(d, m, Meaning(prg, key, e[key]))]))
  {
    hide SetupRows;
    var s0 := State(e, map[]);
    var s1 := Next(prg, s0, Begin(0, d, m));
    var s2 := Next(prg, s1, Advance(0));
    var s3 := Next(prg, s2, Advance(0));
    var s4 := Next(prg, s3, Advance(0));
    RunOfFour(prg, s0, Begin(0, d, m), Advance(0), Advance(0), Advance(0));
    assert Key(d, m) in e ==> EntryOk(prg, Key(d, m), e[Key(d, m)]);
    assert Run(prg, s0, LoadAlone(d, m)) == s4;
  }

  lemma RunOfFour(prg: Prg, s: State, a: Action, b: Action, c: Action, d: Action)
    ensures Run(prg, s, [a, b, c, d]) == Next(prg, Next(prg, Next(prg, Next(prg, s, a), b), c), d)
  {
    hide Next;
    assert [a, b, c, d][1..] == [b, c, d] && [b, c, d][1..] == [c, d] && [c, d][1..] == [d] && [d][1..] == [];
    var s1, s2, s3 := Next(prg, s, a), Next(prg, Next(prg, s, a), b), Next(prg, Next(prg, Next(prg, s, a), b), c);
    assert Run(prg, s1, [b, c, d]) == Run(prg, s2, [c, d]);
    assert Run(prg, s2, [c, d]) == Run(prg, s3, [d]);
  }

  // ----- the registry object -----

  class PpRegistry {
    const prg: Prg
    var entries: Entries

    ghost predicate Valid()
      reads this
    {
      EntriesOk(prg, entries)
    }

    constructor (prg: Prg)
      ensures Valid() && this.prg == prg && entries == map[]
    {
      this.prg := prg;
      entries := map[];
    }

    /** `set_global_pp`. */
    method SetGlobalPp(pp: PP) returns (r: Outcome<()>)
      requires Valid() && pp.Valid()
      modifies this`entries
      ensures Valid() && Extends(prg, old(entries), entries)
      ensures (entries, r) == SetPp(old(entries), pp)
      ensures entries == Next(prg, State(old(entries), map[]), DoSetPp(pp)).entries
    {
      var key := Key(pp.d, pp.m);
      if key in entries {
        if entries[key].seed.Some? {
          return Bad(SeedAlreadyRegistered);
        }
        return Good(());
      }
      entries := entries[key := Entry(pp.kappa, None, Some(pp))];
      r := Good(());
    }

    /** `set_global_pp_seeded`. */
    method SetGlobalPpSeeded(d: nat, kappa: nat, m: nat, seed: Seed) returns (r: Outcome<()>)
      requires Valid()
      modifies this`entries
      ensures Valid() && Extends(prg, old(entries), entries)
      ensures (entries, r) == SetSeeded(old(entries), d, kappa, m, seed)
      ensures entries == Next(prg, State(old(entries), map[]), DoSetSeeded(d, kappa, m, seed)).entries
    {
      var key := Key(d, m);
      if key in entries {
        var entry := entries[key];
        assert EntryOk(prg, key, entry);
        if entry.pp.Some? {
          if entry.seed.None? {
            return Bad(LoadedWithoutSeed);
          }
          if entry.seed.value != seed {
            return Bad(SeedMismatchLoaded);
          }
          if entry.kappa != kappa || entry.pp.value.kappa != kappa {
            return Bad(KappaMismatch);
          }
          return Good(());
        }
        if entry.seed.Some? {
          if entry.seed.value != seed {
            return Bad(SeedMismatch);
          }
          if entry.kappa != kappa {
            return Bad(KappaMismatch);
          }
          return Good(());
        }
        assert false;
      } else {
        entries := entries[key := Entry(kappa, Some(seed), None)];
        r := Good(());
      }
    }

    /** `unload_global_pp_for_dims`. */
    method UnloadGlobalPp(d: nat, m: nat) returns (r: Outcome<bool>)
      requires Valid()
      modifies this`entries
      ensures Valid() && Extends(prg, old(entries), entries)
      ensures (entries, r) == Unload(old(entries), d, m)
      ensures entries == Next(prg, State(old(entries), map[]), DoUnload(d, m)).entries
    {
      var key := Key(d, m);
      if key !in entries {
        return Good(false);
      }
      var entry := entries[key];
      assert EntryOk(prg, key, entry);
      if entry.seed.None? {
        return Bad(NotSeeded);
      }
      entries := entries[key := entry.(pp := None)];
      r := Good(entry.pp.Some?);
    }

    /** `get_or_load_global_pp_for_dims`, run without interruption. */
    method GetOrLoad(d: nat, m: nat) returns (r: Outcome<PP>)
      requires Valid()
      modifies this`entries
      ensures Valid() && Extends(prg, old(entries), entries)
      ensures r.Good? ==> Key(d, m) in entries && r.value == Meaning(prg, Key(d, m), entries[Key(d, m)])
      ensures r.Good? ==> entries[Key(d, m)].pp == Some(r.value)
      ensures r.Good? <==> Key(d, m) in old(entries) && (old(entries)[Key(d, m)].pp.Some? || d == D)
      ensures forall key :: key in old(entries) && key != Key(d, m) ==> key in entries && entries[key] == old(entries)[key]
      ensures entries.Keys == old(entries).Keys && (r.Bad? ==> entries == old(entries))
      ensures r.Bad? ==> r.error == if Key(d, m) in entries then SetupFailed else NotInitialized
    {
      var key := Key(d, m);
      if key in entries {
        assert EntryOk(prg, key, entries[key]);
        if entries[key].pp.Some? {
          return Good(entries[key].pp.value);
        }
      }
      if key !in entries {
        return Bad(NotInitialized);
      }
      if entries[key].seed.None? {
        return Bad(NotSeeded);
      }
      var seed, kappa := entries[key].seed.value, entries[key].kappa;
      var built := SetupPar(prg, seed, d, kappa, m);
      if built.Err? {
        return Bad(SetupFailed);
      }
      entries := entries[key := Entry(kappa, Some(seed), Some(built.value))];
      r := Good(built.value);
    }

    /** `commit` through a Global(d, m) handle. */
    method Commit(d: nat, m: nat, z: seq<Vec>, schedule: Schedule) returns (r: Answer<Commitment>)
      requires Valid()
      ensures r == CommitAnswer(prg, entries, d, m, z)
    {
      AnswersExactly(prg, entries, d, m, z);
      var key := Key(d, m);
      var shape := CheckShape(z, d, m);
      if !shape || key !in entries || d != D {
        return Panics;
      }
      var entry := entries[key];
      assert EntryOk(prg, key, entry);
      if entry.pp.Some? {
        var c := TryCommitRowMajor(entry.pp.value, d, m, z, schedule);
        r := Answers(c.value);
      } else {
        var c := CommitRowMajorSeeded(prg, entry.seed.value, d, entry.kappa, m, z, schedule);
        r := Answers(c);
      }
    }

    /** `commit_many` through a Global(d, m) handle. */
    method CommitMany(d: nat, m: nat, zs: seq<seq<Vec>>, schedule: Schedule) returns (r: Answer<seq<Commitment>>)
      requires Valid()
      ensures r == CommitManyAnswer(prg, entries, d, m, zs)
    {
      if zs == [] {
        return Answers([]);
      }
      var key := Key(d, m);
      for k := 0 to |zs|
        invariant forall l :: 0 <= l < k ==> HasShape(zs[l], d, m)
      {
        AnswersExactly(prg, entries, d, m, zs[k]);
        var shape := CheckShape(zs[k], d, m);
        if !shape {
          return Panics;
        }
      }
      AnswersExactly(prg, entries, d, m, zs[0]);
      if key !in entries || d != D {
        return Panics;
      }
      var entry := entries[key];
      assert EntryOk(prg, key, entry);
      var cs: seq<Commitment> := [];
      if entry.pp.Some? {
        for k := 0 to |zs|
          invariant |cs| == k
          invariant forall l :: 0 <= l < k ==> CommitAnswer(prg, entries, d, m, zs[l]) == Answers(cs[l])
        {
          var c := TryCommitRowMajor(entry.pp.value, d, m, zs[k], schedule);
          cs := cs + [c.value];
        }
      } else {
        cs := CommitRowMajorSeededMany(prg, entry.seed.value, d, entry.kappa, m, zs, schedule);
      }
      assert forall k :: 0 <= k < |zs| ==> CommitAnswer(prg, entries, d, m, zs[k]) == Answers(cs[k]);
      assert cs == Values(prg, entries, d, m, zs);
      r := Answers(cs);
    }
  }

  method CheckShape(z: seq<Vec>, d: nat, m: nat) returns (ok: bool)
    ensures ok <==> HasShape(z, d, m)
  {
    if |z| != d {
      return false;
    }
    for t := 0 to d
      invariant forall u :: 0 <= u < t ==> |z[u]| == m
    {
      if |z[t]| != m {
        return false;
      }
    }
    ok := true;
  }
}
