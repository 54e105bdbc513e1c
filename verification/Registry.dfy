/** The process-wide registry of property descriptions (src/system/property_info.cxx). */
module PropertyRegistry {
  import opened Basics

  datatype PropertyType = Empty | Bool | Int32 | UInt32 | Int64 | UInt64 | Double | String | Binary

  /** A property description. `unique` is the bare number that travels on the wire. */
  datatype Info = Info(unique: nat, ty: PropertyType, name: string, readable: string)

  /** The registry as a value: descriptions by name, and the next free id, which is also the version. */
  datatype RegistryState = RegistryState(persistent: map<string, Info>, transients: map<string, Info>, unique: nat) {

    ghost predicate Holds(x: Info) {
      || (x.name in persistent && persistent[x.name] == x)
      || (x.name in transients && transients[x.name] == x)
    }

    ghost predicate HasId(i: nat) {
      exists x :: Holds(x) && x.unique == i
    }

    ghost predicate EntriesMatchKeys() {
      && (forall n | n in persistent :: persistent[n].name == n && persistent[n].unique < unique)
      && (forall n | n in transients :: transients[n].name == n && transients[n].unique < unique)
      && (forall n | n in persistent && n in transients :: persistent[n].unique != transients[n].unique)
    }

    ghost predicate IdsDistinct() {
      forall x, y | Holds(x) && Holds(y) && x.unique == y.unique :: x == y
    }

    ghost predicate IdsDense() {
      forall i: nat | i < unique :: HasId(i)
    }

    /** The held ids are exactly 0..unique-1 and no two descriptions share one. */
    ghost predicate Valid() {
      EntriesMatchKeys() && IdsDistinct() && IdsDense()
    }

    /** `later` still holds everything this registry holds. */
    ghost predicate GrowsTo(later: RegistryState) {
      && unique <= later.unique
      && (forall x | Holds(x) :: later.Holds(x))
    }

    function Lookup(name: string): Option<Info> {
      if name in persistent then Some(persistent[name])
      else if name in transients then Some(transients[name])
      else None
    }

    function RegisterPersistent(ty: PropertyType, name: string, readable: string): Result<(RegistryState, nat)> {
      if name in persistent then
        if persistent[name].ty != ty then Err(TypeConflict(name)) else Ok((this, persistent[name].unique))
      else
        Ok((this.(persistent := persistent[name := Info(unique, ty, name, readable)], unique := unique + 1), unique))
    }

    function AllocateTransient(ty: PropertyType, name: string, readable: string): Result<(RegistryState, Info)> {
      match Lookup(name)
      case Some(known) =>
        if known.ty != ty then Err(TypeConflict(name)) else Ok((this, known))
      case None =>
        var info := Info(unique, ty, name, readable);
        Ok((this.(transients := transients[name := info], unique := unique + 1), info))
    }

    /** The registry after a registration; one that is refused leaves it alone. */
    function Registered(r: Registration): RegistryState {
      match r
      case Persistent(ty, name, readable) =>
        (match RegisterPersistent(ty, name, readable) case Ok((reg, _)) => reg case Err(_) => this)
      case Transient(ty, name, readable) =>
        (match AllocateTransient(ty, name, readable) case Ok((reg, _)) => reg case Err(_) => this)
    }

    function RegisteredAll(rs: seq<Registration>): RegistryState
      decreases |rs|
    {
      if rs == [] then this else Registered(rs[0]).RegisteredAll(rs[1..])
    }

    /** `snapshot` lists every held description exactly once, in any order. */
    ghost predicate Enumerates(snapshot: seq<Info>) {
      && (forall x :: x in snapshot <==> Holds(x))
      && (forall i, j :: 0 <= i < j < |snapshot| ==> snapshot[i] != snapshot[j])
    }
  }

  /** What any part of a process may ask of its registry at any time. */
  datatype Registration =
    | Persistent(ty: PropertyType, name: string, readable: string)
    | Transient(ty: PropertyType, name: string, readable: string)

  ghost predicate HasIdIn(snapshot: seq<Info>, i: nat) {
    exists k :: 0 <= k < |snapshot| && snapshot[k].unique == i
  }

  const EMPTY_REGISTRY := RegistryState(map[], map[], 0)

  /** `r'` is `r` with `info` added under the next free id, to either of the two maps. */
  ghost predicate Added(r: RegistryState, r': RegistryState, info: Info) {
    && info.unique == r.unique
    && ( || (info.name !in r.persistent
             && r' == RegistryState(r.persistent[info.name := info], r.transients, r.unique + 1))
         || (info.name !in r.transients
             && r' == RegistryState(r.persistent, r.transients[info.name := info], r.unique + 1)))
  }

  lemma AddedHolds(r: RegistryState, r': RegistryState, info: Info, x: Info)
    requires r.EntriesMatchKeys() && Added(r, r', info)
    ensures r'.Holds(x) <==> x == info || r.Holds(x)
    ensures r.Holds(x) ==> x.unique < r.unique
  {
  }

  lemma AddedKeepsEntries(r: RegistryState, r': RegistryState, info: Info)
    requires r.EntriesMatchKeys() && Added(r, r', info)
    ensures r'.EntriesMatchKeys()
  {
  }

  lemma AddedKeepsIdsDistinct(r: RegistryState, r': RegistryState, info: Info)
    requires r.EntriesMatchKeys() && r.IdsDistinct() && Added(r, r', info)
    ensures r'.IdsDistinct()
  {
    forall x, y | r'.Holds(x) && r'.Holds(y) && x.unique == y.unique
      ensures x == y
    {
      AddedHolds(r, r', info, x);
      AddedHolds(r, r', info, y);
    }
  }

  lemma AddedKeepsIdsDense(r: RegistryState, r': RegistryState, info: Info)
    requires r.EntriesMatchKeys() && r.IdsDense() && Added(r, r', info)
    ensures r'.IdsDense()
  {
    forall i: nat | i < r'.unique
      ensures r'.HasId(i)
    {
      AddedHolds(r, r', info, info);
      if i < r.unique {
        assert r.HasId(i);
        var x :| r.Holds(x) && x.unique == i;
        AddedHolds(r, r', info, x);
      }
    }
  }

  /** Adding a description keeps the registry valid and keeps everything it already held. */
  lemma AddedKeepsValid(r: RegistryState, r': RegistryState, info: Info)
    requires r.Valid() && Added(r, r', info)
    ensures r'.Valid() && r.GrowsTo(r') && r'.Holds(info)
    ensures forall x | r'.Holds(x) :: x == info || r.Holds(x)
  {
    AddedKeepsEntries(r, r', info);
    AddedKeepsIdsDistinct(r, r', info);
    AddedKeepsIdsDense(r, r', info);
    forall x
      ensures r'.Holds(x) <==> x == info || r.Holds(x)
    {
      AddedHolds(r, r', info, x);
    }
  }

  lemma PersistentIsHeld(r: RegistryState, name: string)
    requires r.Valid() && name in r.persistent
    ensures r.persistent[name].name == name && r.Holds(r.persistent[name])
  {
    hide RegistryState.IdsDistinct, RegistryState.IdsDense;
  }

  lemma GrowsToItself(r: RegistryState)
    ensures r.GrowsTo(r)
  {
  }

  /**
   * A persistent registration answers the id of a held description of that name and type; it fails
   * exactly when the persistent map has the name under another type, whatever the transient one has,
   * and grows the registry exactly when the persistent map does not have the name.
   */
  lemma RegisterPersistentSafe(r: RegistryState, ty: PropertyType, name: string, readable: string)
    requires r.Valid()
    ensures match r.RegisterPersistent(ty, name, readable)
            case Ok((r', id)) =>
              && r'.Valid() && r.GrowsTo(r')
              && (exists x :: r'.Holds(x) && x.unique == id && x.name == name && x.ty == ty)
              && (r' == r <==> name in r.persistent)
            case Err(_) => name in r.persistent && r.persistent[name].ty != ty
    ensures r.RegisterPersistent(ty, name, readable).Err? <==> name in r.persistent && r.persistent[name].ty != ty
  {
    if name in r.persistent {
      PersistentIsHeld(r, name);
    }
    hide RegistryState.Valid, RegistryState.GrowsTo, RegistryState.Holds;
    if name in r.persistent {
      GrowsToItself(r);
    } else {
      var info := Info(r.unique, ty, name, readable);
      AddedKeepsValid(r, r.RegisterPersistent(ty, name, readable).value.0, info);
    }
  }

  /**
   * Allocation answers with a held description of the requested name and type; it fails exactly when
   * the name is already known under another type, and grows the registry exactly when the name is new.
   */
  lemma AllocateTransientSafe(r: RegistryState, ty: PropertyType, name: string, readable: string)
    requires r.Valid()
    ensures match r.AllocateTransient(ty, name, readable)
            case Ok((r', info)) =>
              && r'.Valid() && r.GrowsTo(r')
              && r'.Holds(info) && info.name == name && info.ty == ty && r'.Lookup(name) == Some(info)
              && (forall x | r'.Holds(x) :: x == info || r.Holds(x))
              && (r' == r <==> r.Lookup(name).Some?)
              && (forall n | r.Lookup(n).Some? || n != name :: r'.Lookup(n) == r.Lookup(n))
            case Err(_) => r.Lookup(name).Some? && r.Lookup(name).value.ty != ty
    ensures r.AllocateTransient(ty, name, readable).Err? <==> r.Lookup(name).Some? && r.Lookup(name).value.ty != ty
  {
    if r.Lookup(name).None? {
      AddedKeepsValid(r, r.AllocateTransient(ty, name, readable).value.0, Info(r.unique, ty, name, readable));
    }
  }

  /**
   * Where a persistent registration ends up: in the persistent map, under the id it answers, whatever the
   * transient map has. A new entry is the one described; nothing else in either map changes.
   */
  lemma RegisterPersistentLands(r: RegistryState, ty: PropertyType, name: string, readable: string)
    ensures match r.RegisterPersistent(ty, name, readable)
            case Ok((r', id)) =>
              && name in r'.persistent && r'.persistent[name].unique == id
              && r'.Lookup(name) == Some(r'.persistent[name])
              && (name in r.persistent ==> r' == r && r.persistent[name].ty == ty)
              && (name !in r.persistent ==>
                    && r'.persistent[name] == Info(r.unique, ty, name, readable)
                    && r'.unique == r.unique + 1 && r'.transients == r.transients)
              && (forall n | n != name ::
                    && (n in r'.persistent <==> n in r.persistent)
                    && (n in r.persistent ==> r'.persistent[n] == r.persistent[n]))
            case Err(e) => e == TypeConflict(name)
  {
  }

  /** Registering a name again answers the same id and changes nothing; under another type it throws. */
  lemma RegisterPersistentAgain(
      r: RegistryState, ty: PropertyType, name: string, readable: string, other: PropertyType, readable': string)
    ensures match r.RegisterPersistent(ty, name, readable)
            case Ok((r', id)) =>
              r'.RegisterPersistent(other, name, readable')
              == if other == ty then Ok((r', id)) else Err(TypeConflict(name))
            case Err(_) => r.RegisterPersistent(other, name, readable').Ok? ==> other != ty
  {
    RegisterPersistentLands(r, ty, name, readable);
  }

  /**
   * Where a transient allocation ends up: a name known to either map answers with what is there, the
   * persistent map first; a new one goes into the transient map as described. No persistent entry changes.
   */
  lemma AllocateTransientLands(r: RegistryState, ty: PropertyType, name: string, readable: string)
    ensures match r.AllocateTransient(ty, name, readable)
            case Ok((r', info)) =>
              && r'.persistent == r.persistent
              && (name in r.persistent ==> r' == r && info == r.persistent[name])
              && (name !in r.persistent && name in r.transients ==> r' == r && info == r.transients[name])
              && (name !in r.persistent && name !in r.transients ==>
                    && info == Info(r.unique, ty, name, readable) && r'.unique == r.unique + 1
                    && name in r'.transients && r'.transients[name] == info)
              && (forall n | n != name ::
                    && (n in r'.transients <==> n in r.transients)
                    && (n in r.transients ==> r'.transients[n] == r.transients[n]))
            case Err(e) => e == TypeConflict(name)
  {
  }

  /** The first persistent registration of a name among others; `|rs|` if there is none. */
  function FirstPersistent(rs: seq<Registration>, n: string): (i: nat)
    ensures i <= |rs|
    decreases |rs|
  {
    if rs == [] || (rs[0].Persistent? && rs[0].name == n) then 0 else 1 + FirstPersistent(rs[1..], n)
  }

  lemma RegisteredPersistent(reg: RegistryState, r: Registration, n: string)
    ensures var reg' := reg.Registered(r);
            && (n in reg.persistent ==> n in reg'.persistent && reg'.persistent[n] == reg.persistent[n])
            && (n !in reg.persistent ==>
                  if r.Persistent? && r.name == n then
                    n in reg'.persistent && reg'.persistent[n] == Info(reg.unique, r.ty, n, r.readable)
                  else n !in reg'.persistent)
  {
  }

  /** Whatever else is registered, in either way: a name's persistent description is its first registration's. */
  lemma {:induction false} PersistentIsFirstRegistered(reg: RegistryState, rs: seq<Registration>, n: string)
    ensures var reg', i := reg.RegisteredAll(rs), FirstPersistent(rs, n);
            && (n in reg.persistent ==> n in reg'.persistent && reg'.persistent[n] == reg.persistent[n])
            && (n !in reg.persistent ==> (n in reg'.persistent <==> i < |rs|))
            && (n !in reg.persistent && i < |rs| ==>
                  && rs[i].Persistent? && rs[i].name == n
                  && reg'.persistent[n].ty == rs[i].ty && reg'.persistent[n].readable == rs[i].readable
                  && reg'.persistent[n].unique == reg.RegisteredAll(rs[..i]).unique)
    decreases |rs|
  {
    if rs != [] {
      RegisteredPersistent(reg, rs[0], n);
      hide RegistryState.Registered;
      PersistentIsFirstRegistered(reg.Registered(rs[0]), rs[1..], n);
      var i := FirstPersistent(rs, n);
      if i > 0 {
        assert rs[..i][1..] == rs[1..][..i - 1] && rs[..i][0] == rs[0];
      } else {
        assert rs[..0] == [];
      }
    }
  }

  /** A registration leaves the name known, whether it was accepted or refused. */
  lemma RegisteredIsKnown(reg: RegistryState, r: Registration)
    ensures reg.Registered(r).Lookup(r.name).Some?
    ensures forall n | n != r.name :: reg.Registered(r).Lookup(n) == reg.Lookup(n)
    ensures reg.Registered(r) != reg ==> reg.Registered(r).unique == reg.unique + 1
  {
  }

  lemma RegisteredSafe(reg: RegistryState, r: Registration)
    requires reg.Valid()
    ensures reg.Registered(r).Valid() && reg.GrowsTo(reg.Registered(r))
  {
    RegisterPersistentSafe(reg, r.ty, r.name, r.readable);
    AllocateTransientSafe(reg, r.ty, r.name, r.readable);
    hide RegistryState.Valid, RegistryState.GrowsTo, RegistryState.Holds;
    GrowsToItself(reg);
  }

  lemma GrowthIsTransitive(a: RegistryState, b: RegistryState, c: RegistryState)
    requires a.GrowsTo(b) && b.GrowsTo(c)
    ensures a.GrowsTo(c)
  {
  }

  lemma {:induction false} RegisteredAllSafe(reg: RegistryState, rs: seq<Registration>)
    requires reg.Valid()
    ensures reg.RegisteredAll(rs).Valid() && reg.GrowsTo(reg.RegisteredAll(rs))
    decreases |rs|
  {
    hide RegistryState.Valid, RegistryState.GrowsTo, RegistryState.Registered;
    GrowsToItself(reg);
    if rs != [] {
      RegisteredSafe(reg, rs[0]);
      RegisteredAllSafe(reg.Registered(rs[0]), rs[1..]);
      GrowthIsTransitive(reg, reg.Registered(rs[0]), reg.RegisteredAll(rs));
    }
  }

  /** A description held now whose id an earlier version already covered was held then. */
  lemma OldIdWasHeld(before: RegistryState, now: RegistryState, x: Info)
    requires before.Valid() && now.Valid() && before.GrowsTo(now) && now.Holds(x)
    ensures x.unique < before.unique <==> before.Holds(x)
  {
    if x.unique < before.unique {
      assert before.HasId(x.unique);
      var y :| before.Holds(y) && y.unique == x.unique;
      assert now.Holds(y);
    }
  }

  /** A registry never returns to an earlier version with a different table. */
  lemma VersionDeterminesTable(r: RegistryState, later: RegistryState)
    requires r.Valid() && later.Valid() && r.GrowsTo(later)
    requires r.unique == later.unique
    ensures forall x :: r.Holds(x) <==> later.Holds(x)
  {
    forall x | later.Holds(x)
      ensures r.Holds(x)
    {
      assert r.HasId(x.unique);
      var y :| r.Holds(y) && y.unique == x.unique;
      assert later.Holds(y);
    }
  }

  /** The version returned with a snapshot is the number of its entries, and its ids are 0..version-1. */
  lemma SnapshotHasVersionManyEntries(r: RegistryState, snapshot: seq<Info>)
    requires r.Valid() && r.Enumerates(snapshot)
    ensures |snapshot| == r.unique
    ensures forall i: nat | i < r.unique :: HasIdIn(snapshot, i)
  {
    var ids := seq(|snapshot|, k requires 0 <= k < |snapshot| => snapshot[k].unique);
    forall i: nat | i < r.unique
      ensures i in ids && HasIdIn(snapshot, i)
    {
      assert r.HasId(i);
      var x :| r.Holds(x) && x.unique == i;
      assert x in snapshot;
      var k :| 0 <= k < |snapshot| && snapshot[k] == x;
      assert ids[k] == i;
    }
    forall i, j | 0 <= i < j < |ids|
      ensures ids[i] != ids[j]
    {
      assert snapshot[i] in snapshot && snapshot[j] in snapshot;
    }
    forall v: nat | v in ids
      ensures v < r.unique
    {
      var k :| 0 <= k < |ids| && ids[k] == v;
      assert snapshot[k] in snapshot;
    }
    DistinctBelow(ids, r.unique);
  }

  /** The registry object, updated in place under its lock. */
  class Registry {
    var persistentProps: map<string, Info>
    var transientProps: map<string, Info>
    var unique: nat

    function State(): RegistryState
      reads this
    {
      RegistryState(persistentProps, transientProps, unique)
    }

    constructor ()
      ensures State() == EMPTY_REGISTRY
    {
      persistentProps, transientProps, unique := map[], map[], 0;
    }

    method RegisterPersistentProperty(ty: PropertyType, name: string, readable: string) returns (res: Result<nat>)
      modifies this
      ensures match old(State()).RegisterPersistent(ty, name, readable)
              case Ok((s, id)) => State() == s && res == Ok(id)
              case Err(e) => State() == old(State()) && res == Err(e)
      ensures transientProps == old(transientProps)
      ensures res.Ok? ==> name in persistentProps && persistentProps[name].unique == res.value
                          && persistentProps[name].ty == ty
      ensures name !in old(persistentProps) ==>
                && res == Ok(old(unique)) && unique == old(unique) + 1
                && persistentProps == old(persistentProps)[name := Info(old(unique), ty, name, readable)]
      ensures old(State().Valid()) ==> State().Valid() && old(State()).GrowsTo(State())
    {
      ghost var before := State();
      if before.Valid() {
        RegisterPersistentSafe(before, ty, name, readable);
      }
      if name in persistentProps {
        var known := persistentProps[name];
        if known.ty != ty {
          return Err(TypeConflict(name));
        }
        return Ok(known.unique);
      }
      var id := unique;
      unique := unique + 1;
      persistentProps := persistentProps[name := Info(id, ty, name, readable)];
      return Ok(id);
    }

    method AllocateTransientProperty(ty: PropertyType, name: string, readable: string) returns (res: Result<Info>)
      modifies this
      ensures match old(State()).AllocateTransient(ty, name, readable)
              case Ok((s, info)) => State() == s && res == Ok(info)
              case Err(e) => State() == old(State()) && res == Err(e)
      ensures persistentProps == old(persistentProps)
      ensures name !in old(persistentProps) && name !in old(transientProps) ==>
                && res == Ok(Info(old(unique), ty, name, readable)) && unique == old(unique) + 1
                && transientProps == old(transientProps)[name := res.value]
      ensures old(State().Valid()) ==> State().Valid() && old(State()).GrowsTo(State())
    {
      ghost var before := State();
      if before.Valid() {
        AllocateTransientSafe(before, ty, name, readable);
      }
      if name in persistentProps {
        if persistentProps[name].ty != ty {
          return Err(TypeConflict(name));
        }
        return Ok(persistentProps[name]);
      }
      if name in transientProps {
        if transientProps[name].ty != ty {
          return Err(TypeConflict(name));
        }
        return Ok(transientProps[name]);
      }
      var id := unique;
      unique := unique + 1;
      var info := Info(id, ty, name, readable);
      transientProps := transientProps[name := info];
      return Ok(info);
    }

    /** The registrations other code makes, one after the other. */
    method RegisterAll(rs: seq<Registration>)
      modifies this
      ensures State() == old(State()).RegisteredAll(rs)
    {
      ghost var whole := State().RegisteredAll(rs);
      for i := 0 to |rs|
        invariant State().RegisteredAll(rs[i..]) == whole
      {
        assert rs[i..][0] == rs[i] && rs[i..][1..] == rs[i + 1..];
        match rs[i] {
          case Persistent(ty, name, readable) => var _ := RegisterPersistentProperty(ty, name, readable);
          case Transient(ty, name, readable) => var _ := AllocateTransientProperty(ty, name, readable);
        }
      }
    }

    method LookupProperty(name: string) returns (info: Option<Info>)
      ensures info == State().Lookup(name)
      ensures name in persistentProps ==> info == Some(persistentProps[name])
      ensures name !in persistentProps && name in transientProps ==> info == Some(transientProps[name])
      ensures info.None? <==> name !in persistentProps && name !in transientProps
    {
      if name in persistentProps {
        return Some(persistentProps[name]);
      }
      if name in transientProps {
        return Some(transientProps[name]);
      }
      return None;
    }

    /** Collects the persistent descriptions, then the transient ones, each map in its own unknown order. */
    method EnumerateProperties() returns (snapshot: seq<Info>, version: nat)
      requires State().Valid()
      ensures State().Enumerates(snapshot)
      ensures version == unique && |snapshot| == version
    {
      snapshot := [];
      var names := persistentProps.Keys;
      while names != {}
        invariant names <= persistentProps.Keys
        invariant forall x ::
                    x in snapshot <==> x.name in persistentProps && x.name !in names && persistentProps[x.name] == x
        invariant forall i, j :: 0 <= i < j < |snapshot| ==> snapshot[i] != snapshot[j]
        decreases names
      {
        var name :| name in names;
        snapshot := snapshot + [persistentProps[name]];
        names := names - {name};
      }
      ghost var first := snapshot;
      names := transientProps.Keys;
      while names != {}
        invariant names <= transientProps.Keys
        invariant forall x ::
                    x in snapshot
                    <==> x in first || (x.name in transientProps && x.name !in names && transientProps[x.name] == x)
        invariant forall i, j :: 0 <= i < j < |snapshot| ==> snapshot[i] != snapshot[j]
        decreases names
      {
        var name :| name in names;
        var info := transientProps[name];
        snapshot := snapshot + [info];
        names := names - {name};
      }
      SnapshotHasVersionManyEntries(State(), snapshot);
      return snapshot, unique;
    }
  }
}
