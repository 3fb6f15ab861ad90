/**
 Concurrent administrators editing the global config through a compare-and-swap store.

 Each handler reads the config, checks the version the client named, edits its own copy and writes it
 back under that version; the full replacement skips the read. The store is a versioned register that
 rejects a write whose version is not current. Handlers may interleave in any way between their read
 and their write.
 */
module ConfigStore {
  import opened Wrappers
  import opened JsonMerge

  // A model's name and its other settings; a config's models and its other settings.
  datatype Model = Model(name: string, fields: Members)
  datatype Config = Config(models: seq<Model>, settings: Members)

  datatype Op =
    | Create(model: Model)
    | PatchModel(name: string, patch: Members)
    | Delete(name: string)
    | Put(config: Config)

  // What the handlers take from elsewhere: reading a merged object back as a model, field validation,
  // removal of provider secrets, and the YAML config that stands in for an absent one.
  datatype Env = Env(
    parse: Members -> Option<Members>,
    validModel: (Model, Config) -> bool,
    validSettings: Members -> bool,
    strip: Members -> Members,
    yaml: Config)

  // ---- Editing a model list -----------------------------------------------------------------------

  ghost predicate UniqueNames(ms: seq<Model>) {
    forall i, j | 0 <= i < j < |ms| :: ms[i].name != ms[j].name
  }

  predicate HasModel(ms: seq<Model>, name: string) {
    exists i :: 0 <= i < |ms| && ms[i].name == name
  }

  function IndexOf(ms: seq<Model>, name: string): (i: nat)
    ensures i <= |ms| && (i < |ms| <==> HasModel(ms, name)) && (i < |ms| ==> ms[i].name == name)
    ensures forall j | 0 <= j < i :: ms[j].name != name
  {
    if ms == [] then 0
    else if ms[0].name == name then 0
    else
      var i := 1 + IndexOf(ms[1..], name);
      assert HasModel(ms, name) <==> HasModel(ms[1..], name) by {
        if HasModel(ms, name) {
          var k :| 0 <= k < |ms| && ms[k].name == name;
          assert ms[1..][k - 1].name == name;
        }
        if HasModel(ms[1..], name) {
          var k :| 0 <= k < |ms[1..]| && ms[1..][k].name == name;
          assert ms[k + 1].name == name;
        }
      }
      assert forall j | 0 < j < i :: ms[j] == ms[1..][j - 1];
      i
  }

  function Without(ms: seq<Model>, name: string): seq<Model> {
    if ms == [] then []
    else Without(ms[..|ms| - 1], name) + if ms[|ms| - 1].name == name then [] else [ms[|ms| - 1]]
  }

  method FindModel(ms: seq<Model>, name: string) returns (index: int)
    ensures index == if HasModel(ms, name) then IndexOf(ms, name) else -1
  {
    index := -1;
    for i := 0 to |ms|
      invariant forall j | 0 <= j < i :: ms[j].name != name
    {
      if ms[i].name == name {
        assert HasModel(ms, name);
        return i;
      }
    }
  }

  method RemoveModel(ms: seq<Model>, name: string) returns (kept: seq<Model>)
    ensures kept == Without(ms, name)
  {
    kept := [];
    for i := 0 to |ms|
      invariant kept == Without(ms[..i], name)
    {
      assert ms[..i + 1][..i] == ms[..i];
      if ms[i].name != name {
        kept := kept + [ms[i]];
      }
    }
    assert ms[..|ms|] == ms;
  }

  predicate NamesOk(ms: seq<Model>) {
    && (forall i | 0 <= i < |ms| :: ms[i].name != "")
    && (forall i, j | 0 <= i < j < |ms| :: ms[i].name != ms[j].name)
  }

  method ValidateNames(ms: seq<Model>) returns (ok: bool)
    ensures ok == NamesOk(ms)
  {
    var seen: set<string> := {};
    for i := 0 to |ms|
      invariant NamesOk(ms[..i])
      invariant forall n :: n in seen <==> exists j :: 0 <= j < i && ms[j].name == n
    {
      if ms[i].name == "" || ms[i].name in seen {
        return false;
      }
      seen := seen + {ms[i].name};
    }
    assert ms[..|ms|] == ms;
    return true;
  }

  lemma {:induction false} WithoutUnique(ms: seq<Model>, name: string)
    requires UniqueNames(ms)
    ensures UniqueNames(Without(ms, name))
    ensures forall i | 0 <= i < |Without(ms, name)| :: Without(ms, name)[i] in ms && Without(ms, name)[i].name != name
  {
    if ms != [] {
      var init, last := ms[..|ms| - 1], ms[|ms| - 1];
      WithoutUnique(init, name);
      var r := Without(init, name);
      forall i | 0 <= i < |r| ensures r[i].name != last.name && r[i] in ms {
        var k :| 0 <= k < |init| && init[k] == r[i];
        assert ms[k] == init[k];
      }
    }
  }

  /** Deleting keeps every other model and their order, and removes the named one. */
  lemma {:induction false} WithoutKeeps(ms: seq<Model>, name: string, m: Model)
    ensures m in Without(ms, name) <==> m in ms && m.name != name
  {
    if ms != [] {
      WithoutKeeps(ms[..|ms| - 1], name, m);
      assert ms == ms[..|ms| - 1] + [ms[|ms| - 1]];
    }
  }

  // ---- The edit each handler makes ----------------------------------------------------------------

  function Edit(env: Env, op: Op, base: Config): Option<Config> {
    match op
    case Create(m) =>
      if m.name == "" || HasModel(base.models, m.name) || !env.validModel(m, base) then None
      else Some(Config(base.models + [m], env.strip(base.settings)))
    case PatchModel(name, patch) =>
      var i := IndexOf(base.models, name);
      if i == |base.models| then None
      else
        (match env.parse(Merge(base.models[i].fields, patch))
         case None => None
         case Some(fields) =>
           var patched := Model(name, fields);
           var edited := base.(models := base.models[i := patched]);
           if !env.validModel(patched, edited) then None
           else Some(Config(edited.models, env.strip(edited.settings))))
    case Delete(name) =>
      var kept := Without(base.models, name);
      if |kept| == |base.models| then None else Some(Config(kept, env.strip(base.settings)))
    case Put(config) =>
      if !NamesOk(config.models) || !env.validSettings(config.settings) then None
      else Some(Config(config.models, env.strip(config.settings)))
  }

  /** No edit makes two models share a name. */
  lemma EditKeepsUnique(env: Env, op: Op, base: Config)
    requires UniqueNames(base.models) && Edit(env, op, base).Some?
    ensures UniqueNames(Edit(env, op, base).value.models)
  {
    match op
    case Create(m) =>
      forall i | 0 <= i < |base.models| ensures base.models[i].name != m.name {
      }
    case PatchModel(name, patch) =>
    case Delete(name) =>
      WithoutUnique(base.models, name);
    case Put(config) =>
  }

  // ---- What an edit is, without the code that makes it ------------------------------------------------

  ghost predicate FirstNamed(ms: seq<Model>, name: string, i: nat) {
    i < |ms| && ms[i].name == name && forall j | 0 <= j < i :: ms[j].name != name
  }

  // `index` lists, in order, exactly the places of the models of other names, and `kept` are those models.
  ghost predicate KeptAt(ms: seq<Model>, name: string, kept: seq<Model>, index: seq<nat>) {
    && |index| == |kept|
    && (forall i | 0 <= i < |kept| :: index[i] < |ms| && kept[i] == ms[index[i]] && kept[i].name != name)
    && (forall i, j | 0 <= i < j < |index| :: index[i] < index[j])
    && (forall p: nat | p < |ms| && ms[p].name != name :: p in index)
  }

  ghost predicate Kept(ms: seq<Model>, name: string, kept: seq<Model>) {
    exists index: seq<nat> :: KeptAt(ms, name, kept, index)
  }

  // The model at `i` is replaced by its merge with the patch, under its own name.
  ghost predicate PatchedAt(env: Env, name: string, patch: Members, base: Config, i: nat, models: seq<Model>)
    requires i < |base.models|
  {
    match env.parse(Merge(base.models[i].fields, patch))
    case None => false
    case Some(fields) =>
      && models == base.models[i := Model(name, fields)]
      && env.validModel(Model(name, fields), Config(models, base.settings))
  }

  // `c` is what the operation makes of `base`; when there is no such config the operation is refused.
  ghost predicate Edits(env: Env, op: Op, base: Config, c: Config) {
    && c.settings == env.strip(if op.Put? then op.config.settings else base.settings)
    && match op
       case Create(m) =>
         && m.name != "" && (forall i | 0 <= i < |base.models| :: base.models[i].name != m.name)
         && env.validModel(m, base) && c.models == base.models + [m]
       case PatchModel(name, patch) =>
         exists i: nat :: FirstNamed(base.models, name, i) && PatchedAt(env, name, patch, base, i, c.models)
       case Delete(name) =>
         (exists i :: 0 <= i < |base.models| && base.models[i].name == name) && Kept(base.models, name, c.models)
       case Put(config) =>
         && (forall i | 0 <= i < |config.models| :: config.models[i].name != "")
         && (forall i, j | 0 <= i < j < |config.models| :: config.models[i].name != config.models[j].name)
         && env.validSettings(config.settings) && c.models == config.models
  }

  lemma {:induction false} WithoutIsKept(ms: seq<Model>, name: string) returns (index: seq<nat>)
    ensures KeptAt(ms, name, Without(ms, name), index)
  {
    index := [];
    if ms != [] {
      hide KeptAt;
      var n := |ms| - 1;
      var init, last := ms[..n], ms[n];
      index := WithoutIsKept(init, name);
      assert ms == init + [last];
      if last.name != name {
        KeptSnoc(init, last, name, Without(init, name), index);
        index := index + [n];
      } else {
        KeptStays(init, last, name, Without(init, name), index);
        assert Without(init, name) + [] == Without(init, name);
      }
    }
  }

  lemma {:induction false} WithoutSize(ms: seq<Model>, name: string)
    ensures |Without(ms, name)| <= |ms|
    ensures |Without(ms, name)| == |ms| <==> forall i | 0 <= i < |ms| :: ms[i].name != name
  {
    if ms != [] {
      WithoutSize(ms[..|ms| - 1], name);
    }
  }

  lemma KeptStays(ms: seq<Model>, m: Model, name: string, kept: seq<Model>, index: seq<nat>)
    requires KeptAt(ms, name, kept, index) && m.name == name
    ensures KeptAt(ms + [m], name, kept, index)
  {
    forall p: nat | p < |ms| + 1 && (ms + [m])[p].name != name ensures p in index {
      assert ms[p].name != name;
    }
  }

  lemma KeptSnoc(ms: seq<Model>, m: Model, name: string, kept: seq<Model>, index: seq<nat>)
    requires KeptAt(ms, name, kept, index) && m.name != name
    ensures KeptAt(ms + [m], name, kept + [m], index + [|ms|])
  {
    var index' := index + [|ms|];
    forall p: nat | p < |ms| + 1 && (ms + [m])[p].name != name ensures p in index' {
      if p < |ms| {
        assert ms[p].name != name && p in index;
      } else {
        assert index'[|index|] == p;
      }
    }
  }

  lemma {:induction false} KeptIsWithout(ms: seq<Model>, name: string, kept: seq<Model>, index: seq<nat>)
    requires KeptAt(ms, name, kept, index)
    ensures kept == Without(ms, name)
    decreases |ms|
  {
    if ms == [] {
      if kept != [] {
        KeptSomewhere(ms, name, kept, index);
      }
    } else {
      var n := |ms| - 1;
      if ms[n].name == name {
        KeptInit(ms, name, kept, index);
        KeptIsWithout(ms[..n], name, kept, index);
        assert Without(ms, name) == Without(ms[..n], name) + [];
      } else {
        var k := KeptLast(ms, name, kept, index);
        KeptIsWithout(ms[..n], name, kept[..k], index[..k]);
      }
    }
  }

  lemma KeptSomewhere(ms: seq<Model>, name: string, kept: seq<Model>, index: seq<nat>)
    requires KeptAt(ms, name, kept, index) && kept != []
    ensures ms != []
  {
    assert index[0] < |ms|;
  }

  lemma KeptInit(ms: seq<Model>, name: string, kept: seq<Model>, index: seq<nat>)
    requires ms != [] && KeptAt(ms, name, kept, index) && ms[|ms| - 1].name == name
    ensures KeptAt(ms[..|ms| - 1], name, kept, index)
  {
    var init := ms[..|ms| - 1];
    forall i | 0 <= i < |kept| ensures index[i] < |init| && kept[i] == init[index[i]] {
      assert kept[i] == ms[index[i]];
    }
    forall p: nat | p < |init| && init[p].name != name ensures p in index {
      assert ms[p].name != name;
    }
  }

  lemma KeptLast(ms: seq<Model>, name: string, kept: seq<Model>, index: seq<nat>) returns (k: nat)
    requires ms != [] && KeptAt(ms, name, kept, index) && ms[|ms| - 1].name != name
    ensures |kept| == |index| == k + 1 && kept == kept[..k] + [ms[|ms| - 1]]
    ensures KeptAt(ms[..|ms| - 1], name, kept[..k], index[..k])
  {
    k := LastPlace(ms, name, kept, index);
    assert kept[k] == ms[index[k]];
    KeptFront(ms, name, kept, index, k);
  }

  lemma LastPlace(ms: seq<Model>, name: string, kept: seq<Model>, index: seq<nat>) returns (k: nat)
    requires ms != [] && KeptAt(ms, name, kept, index) && ms[|ms| - 1].name != name
    ensures |kept| == |index| == k + 1 && index[k] == |ms| - 1
  {
    var n := |ms| - 1;
    assert n in index;
    var at :| 0 <= at < |index| && index[at] == n;
    k := |index| - 1;
    assert index[at] <= index[k];
    assert index[k] < |ms|;
  }

  lemma KeptFront(ms: seq<Model>, name: string, kept: seq<Model>, index: seq<nat>, k: nat)
    requires KeptAt(ms, name, kept, index) && |kept| == |index| == k + 1 && index[k] == |ms| - 1
    ensures KeptAt(ms[..|ms| - 1], name, kept[..k], index[..k])
  {
    var init := ms[..|ms| - 1];
    forall i | 0 <= i < k ensures index[i] < |init| && kept[i] == init[index[i]] && kept[i].name != name {
      assert index[i] < index[k] && kept[i] == ms[index[i]];
    }
    forall p: nat | p < |init| && init[p].name != name ensures p in index[..k] {
      assert ms[p].name != name;
      InFront(index, k, p);
    }
  }

  lemma InFront(index: seq<nat>, k: nat, p: nat)
    requires |index| == k + 1 && p in index && p != index[k]
    ensures p in index[..k]
  {
    assert index == index[..k] + [index[k]];
  }

  lemma {:induction false} DeleteExactly(ms: seq<Model>, name: string, kept: seq<Model>)
    ensures Kept(ms, name, kept) <==> kept == Without(ms, name)
    ensures |Without(ms, name)| == |ms| <==> forall i | 0 <= i < |ms| :: ms[i].name != name
  {
    var index := WithoutIsKept(ms, name);
    WithoutSize(ms, name);
    if Kept(ms, name, kept) {
      var places: seq<nat> :| KeptAt(ms, name, kept, places);
      KeptIsWithout(ms, name, kept, places);
    }
  }

  lemma PatchExactly(env: Env, name: string, patch: Members, base: Config, c: Config)
    ensures Edit(env, PatchModel(name, patch), base) == Some(c) <==> Edits(env, PatchModel(name, patch), base, c)
  {
    var i := IndexOf(base.models, name);
    if i < |base.models| {
      assert FirstNamed(base.models, name, i);
      forall j: nat | FirstNamed(base.models, name, j) ensures j == i {
      }
    }
  }

  lemma CreateExactly(env: Env, m: Model, base: Config, c: Config)
    ensures Edit(env, Create(m), base) == Some(c) <==> Edits(env, Create(m), base, c)
  {
    assert HasModel(base.models, m.name) <==> !forall i | 0 <= i < |base.models| :: base.models[i].name != m.name;
  }

  /** An edit is accepted with the result `c` exactly when `c` is what the operation makes of the config it read: the
      settings it should have, stripped, and the model list with the one change in its place. */
  lemma {:induction false} EditExactly(env: Env, op: Op, base: Config, c: Config)
    ensures Edit(env, op, base) == Some(c) <==> Edits(env, op, base, c)
  {
    match op
    case Create(m) => CreateExactly(env, m, base, c);
    case PatchModel(name, patch) => PatchExactly(env, name, patch, base, c);
    case Delete(name) =>
      hide Kept;
      DeleteExactly(base.models, name, c.models);
    case Put(config) =>
  }

  function Target(op: Op): string
    requires !op.Put?
  {
    match op
    case Create(m) => m.name
    case PatchModel(name, _) => name
    case Delete(name) => name
  }

  lemma UpdatedMembers(ms: seq<Model>, i: nat, added: Model, m: Model)
    requires i < |ms| && UniqueNames(ms) && added.name == ms[i].name
    ensures m in ms[i := added] <==> m == added || (m in ms && m.name != added.name)
  {
    var r := ms[i := added];
    assert r[i] == added;
    if m in r {
      var k :| 0 <= k < |r| && r[k] == m;
      assert k != i ==> ms[k] == m;
    }
    if m in ms && m.name != added.name {
      var k :| 0 <= k < |ms| && ms[k] == m;
      assert r[k] == m;
    }
  }

  /** A create, patch or delete changes the model it names and no other: every model of another name stays as it
      was and none appears; the named one is the created one, the merged one, or gone. */
  lemma EditEffect(env: Env, op: Op, base: Config, m: Model)
    requires UniqueNames(base.models) && !op.Put? && Edit(env, op, base).Some?
    ensures var r := Edit(env, op, base).value.models;
            && (m.name != Target(op) ==> (m in r <==> m in base.models))
            && (m.name == Target(op) ==>
                  (m in r <==>
                     match op
                     case Create(added) => m == added
                     case PatchModel(_, patch) =>
                       exists prior :: prior in base.models && prior.name == m.name &&
                         env.parse(Merge(prior.fields, patch)) == Some(m.fields)
                     case Delete(_) => false))
  {
    match op
    case Create(added) =>
      assert m in base.models ==> exists i :: 0 <= i < |base.models| && base.models[i].name == m.name;
    case PatchModel(name, patch) =>
      var i := IndexOf(base.models, name);
      var prior := base.models[i];
      assert prior in base.models;
      UpdatedMembers(base.models, i, Model(name, env.parse(Merge(prior.fields, patch)).value), m);
    case Delete(name) =>
      WithoutKeeps(base.models, name, m);
  }

  // ---- The protocol ----------------------------------------------------------------------------------

  datatype Register = Register(version: nat, stored: Option<Config>)

  function Current(env: Env, reg: Register): Config {
    reg.stored.GetOr(env.yaml)
  }

  // The version a read reports: an absent config reads as version 0.
  function ReadVersion(reg: Register): nat {
    if reg.stored.None? then 0 else reg.version
  }

  // A handler between its edit and its write.
  datatype Pending = Pending(op: Op, ifMatch: int, config: Config)
  datatype Commit = Commit(op: Op, config: Config)

  datatype System = System(reg: Register, pending: map<nat, Pending>, history: seq<Commit>)

  datatype Event =
    | Prepare(id: nat, op: Op, ifMatch: int, inUse: bool)  // read, check and edit; `inUse`: a tenant uses the model
    | Write(id: nat)                                       // compare and swap

  // What the handler holds after its read, if it got that far.
  function Prepared(env: Env, reg: Register, e: Event): Option<Pending>
    requires e.Prepare?
  {
    if !e.op.Put? && (e.ifMatch != ReadVersion(reg) || (e.op.Delete? && e.inUse)) then None
    else match Edit(env, e.op, Current(env, reg))
         case None => None
         case Some(c) => Some(Pending(e.op, e.ifMatch, c))
  }

  predicate Enabled(s: System, e: Event) {
    if e.Prepare? then e.id !in s.pending else e.id in s.pending
  }

  function Next(env: Env, s: System, e: Event): System
    requires Enabled(s, e)
  {
    match e
    case Prepare(id, _, _, _) =>
      (match Prepared(env, s.reg, e)
       case None => s
       case Some(p) => s.(pending := s.pending[id := p]))
    case Write(id) =>
      var p := s.pending[id];
      var left := s.(pending := s.pending - {id});
      if p.ifMatch != s.reg.version then left
      else left.(reg := Register(s.reg.version + 1, Some(p.config)), history := s.history + [Commit(p.op, p.config)])
  }

  ghost predicate IsRun(env: Env, ss: seq<System>, es: seq<Event>) {
    && |ss| == |es| + 1
    && ss[0].pending == map[] && ss[0].history == []
    && forall i | 0 <= i < |es| :: Enabled(ss[i], es[i]) && ss[i + 1] == Next(env, ss[i], es[i])
  }

  // The config that was current before commit `i`.
  function Before(start: Config, history: seq<Commit>, i: nat): Config
    requires i <= |history|
  {
    if i == 0 then start else history[i - 1].config
  }

  ghost predicate Sound(env: Env, start: Config, s: System) {
    && Current(env, s.reg) == Before(start, s.history, |s.history|)
    && (forall id | id in s.pending :: !s.pending[id].op.Put? ==> s.pending[id].ifMatch <= s.reg.version)
    && (forall id | id in s.pending && (s.pending[id].op.Put? || s.pending[id].ifMatch == s.reg.version) ::
          Edit(env, s.pending[id].op, Current(env, s.reg)) == Some(s.pending[id].config))
    && (forall i | 0 <= i < |s.history| ::
          Edit(env, s.history[i].op, Before(start, s.history, i)) == Some(s.history[i].config))
  }

  lemma WriteKeepsSound(env: Env, start: Config, s: System, e: Event)
    requires Sound(env, start, s) && Enabled(s, e) && e.Write?
    ensures Sound(env, start, Next(env, s, e))
  {
    hide Edit;
    var s', p := Next(env, s, e), s.pending[e.id];
    if p.ifMatch == s.reg.version {
      forall i | 0 <= i < |s'.history|
        ensures Edit(env, s'.history[i].op, Before(start, s'.history, i)) == Some(s'.history[i].config)
      {
        if i < |s.history| {
          assert Before(start, s'.history, i) == Before(start, s.history, i);
        } else {
          assert Before(start, s'.history, i) == Current(env, s.reg);
        }
      }
      forall id | id in s'.pending && s'.pending[id].op.Put?
        ensures Edit(env, s'.pending[id].op, Current(env, s'.reg)) == Some(s'.pending[id].config)
      {
        PutIgnoresBase(env, s'.pending[id].op, Current(env, s.reg), Current(env, s'.reg));
      }
    }
  }

  lemma PutIgnoresBase(env: Env, op: Op, one: Config, two: Config)
    requires op.Put?
    ensures Edit(env, op, one) == Edit(env, op, two)
  {
  }

  lemma PrepareKeepsSound(env: Env, start: Config, s: System, e: Event)
    requires Sound(env, start, s) && Enabled(s, e) && e.Prepare?
    ensures Sound(env, start, Next(env, s, e))
  {
    hide Edit;
  }

  lemma {:induction false} RunSound(env: Env, ss: seq<System>, es: seq<Event>, j: nat)
    requires IsRun(env, ss, es) && j < |ss|
    ensures Sound(env, Current(env, ss[0].reg), ss[j])
  {
    if j > 0 {
      RunSound(env, ss, es, j - 1);
      if es[j - 1].Write? {
        WriteKeepsSound(env, Current(env, ss[0].reg), ss[j - 1], es[j - 1]);
      } else {
        PrepareKeepsSound(env, Current(env, ss[0].reg), ss[j - 1], es[j - 1]);
      }
    }
  }

  /** No lost update: in every run each committed config is that handler's edit of the config committed just
      before it, however the handlers interleave. */
  lemma {:induction false} NoLostUpdate(env: Env, ss: seq<System>, es: seq<Event>, j: nat, i: nat)
    requires IsRun(env, ss, es) && j < |ss| && i < |ss[j].history|
    ensures var h := ss[j].history;
            && Edit(env, h[i].op, Before(Current(env, ss[0].reg), h, i)) == Some(h[i].config)
            && Edits(env, h[i].op, Before(Current(env, ss[0].reg), h, i), h[i].config)
  {
    hide Edit, Edits;
    RunSound(env, ss, es, j);
    var h := ss[j].history;
    EditExactly(env, h[i].op, Before(Current(env, ss[0].reg), h, i), h[i].config);
  }

  // ---- What a handler reads --------------------------------------------------------------------------

  /** A handler gets as far as its write exactly when the version the client named is the one it read (0 for an absent
      config; the full replacement reads none), no tenant uses the model it deletes, and the edit of the config it read
      (the YAML one for an absent config) is accepted; it then holds that edit and that version. */
  lemma PreparedExactly(env: Env, reg: Register, e: Event, p: Pending)
    requires e.Prepare?
    ensures Prepared(env, reg, e) == Some(p) <==>
            && (!e.op.Put? ==> e.ifMatch == match reg.stored { case None => 0 case Some(_) => reg.version })
            && !(e.op.Delete? && e.inUse)
            && Edits(env, e.op, match reg.stored { case None => env.yaml case Some(c) => c }, p.config)
            && p.op == e.op && p.ifMatch == e.ifMatch
  {
    hide Edit, Edits;
    EditExactly(env, e.op, Current(env, reg), p.config);
  }

  // ---- When a write is accepted ----------------------------------------------------------------------

  // A register that holds nothing has version 0.
  ghost predicate EmptyIsZero(reg: Register) {
    reg.stored.None? ==> reg.version == 0
  }

  lemma {:induction false} VersionCounts(env: Env, ss: seq<System>, es: seq<Event>, i: nat, j: nat)
    requires IsRun(env, ss, es) && i <= j < |ss| && EmptyIsZero(ss[i].reg)
    ensures EmptyIsZero(ss[j].reg)
    ensures ss[j].reg.version - ss[i].reg.version == |ss[j].history| - |ss[i].history| >= 0
  {
    hide Edit;
    if i < j {
      VersionCounts(env, ss, es, i, j - 1);
      assert ss[j] == Next(env, ss[j - 1], es[j - 1]);
    }
  }

  // Until its own write, a handler keeps what it prepared.
  lemma {:induction false} StaysPending(env: Env, ss: seq<System>, es: seq<Event>, id: nat, i: nat, j: nat)
    requires IsRun(env, ss, es) && i <= j < |ss| && id in ss[i].pending
    requires forall m | i <= m < j :: es[m] != Write(id)
    ensures id in ss[j].pending && ss[j].pending[id] == ss[i].pending[id]
  {
    hide Edit;
    if i < j {
      StaysPending(env, ss, es, id, i, j - 1);
      assert Enabled(ss[j - 1], es[j - 1]) && ss[j] == Next(env, ss[j - 1], es[j - 1]);
    }
  }

  /** A create, patch or delete that has read the config is accepted exactly when nobody else commits between its read
      and its write; it is then the next commit, and otherwise the store does not change. */
  lemma CommitExactly(env: Env, ss: seq<System>, es: seq<Event>, i: nat, j: nat)
    requires IsRun(env, ss, es) && EmptyIsZero(ss[0].reg) && i < j < |es|
    requires es[i].Prepare? && !es[i].op.Put? && Prepared(env, ss[i].reg, es[i]).Some?
    requires es[j] == Write(es[i].id) && forall m | i < m < j :: es[m] != Write(es[i].id)
    ensures var p := Prepared(env, ss[i].reg, es[i]).value;
            if ss[j].history == ss[i].history
            then ss[j + 1].history == ss[j].history + [Commit(p.op, p.config)] && ss[j + 1].reg.stored == Some(p.config)
            else ss[j + 1].history == ss[j].history && ss[j + 1].reg == ss[j].reg
  {
    hide Edit;
    var id := es[i].id;
    assert Enabled(ss[i], es[i]) && ss[i + 1] == Next(env, ss[i], es[i]);
    assert Enabled(ss[j], es[j]) && ss[j + 1] == Next(env, ss[j], es[j]);
    VersionCounts(env, ss, es, 0, i);
    VersionCounts(env, ss, es, i, j);
    StaysPending(env, ss, es, id, i + 1, j);
    HistoryGrows(env, ss, es, i, j);
  }

  /** Any write, the full replacement included, is accepted exactly when the version it names is current: the register
      then holds its config under the next version, and otherwise nothing changes. Other handlers are not affected. */
  lemma WriteExactly(env: Env, s: System, e: Event)
    requires Enabled(s, e) && e.Write?
    ensures var p, t := s.pending[e.id], Next(env, s, e);
            && t.pending == s.pending - {e.id}
            && (if p.ifMatch == s.reg.version
                then && t.reg == Register(s.reg.version + 1, Some(p.config))
                     && t.history == s.history + [Commit(p.op, p.config)]
                else t.reg == s.reg && t.history == s.history)
  {
  }

  lemma {:induction false} HistoryGrows(env: Env, ss: seq<System>, es: seq<Event>, i: nat, j: nat)
    requires IsRun(env, ss, es) && i <= j < |ss|
    ensures ss[i].history <= ss[j].history
  {
    hide Edit;
    if i < j {
      HistoryGrows(env, ss, es, i, j - 1);
      assert ss[j] == Next(env, ss[j - 1], es[j - 1]);
    }
  }

  /** Model names stay unique in every committed config if they were at the start. */
  lemma {:induction false} NamesStayUnique(env: Env, ss: seq<System>, es: seq<Event>, j: nat, i: nat)
    requires IsRun(env, ss, es) && j < |ss| && i <= |ss[j].history|
    requires UniqueNames(Current(env, ss[0].reg).models)
    ensures UniqueNames(Before(Current(env, ss[0].reg), ss[j].history, i).models)
    decreases i
  {
    if i > 0 {
      NamesStayUnique(env, ss, es, j, i - 1);
      NoLostUpdate(env, ss, es, j, i - 1);
      EditKeepsUnique(env, ss[j].history[i - 1].op, Before(Current(env, ss[0].reg), ss[j].history, i - 1));
    }
  }
}
