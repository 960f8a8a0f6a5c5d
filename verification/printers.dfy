/**
 * Printer reconciliation: the local printer list is brought in line with the
 * cluster's printer snapshot. Printers that disappeared are dropped, new uuids
 * get a freshly constructed printer, and printers seen before are updated in
 * place, keeping their identity.
 */
module Printers {
  import opened Base
  import opened Diff
  import opened Materials

  /** One extruder configuration reported by the cluster. */
  datatype RemoteExtruder = RemoteExtruder(printCoreId: string, material: RemoteMaterial)

  /** One printer of the cluster's status snapshot. */
  datatype RemotePrinter = RemotePrinter(
    uuid: Uuid,
    friendlyName: string,
    machineVariant: string,
    enabled: bool,
    status: string,
    firmwareVersion: string,
    configuration: seq<RemoteExtruder>)

  /** A local extruder: its hotend and the material it shows (if any). */
  datatype Extruder = Extruder(hotendId: string, activeMaterial: Option<Material>)

  /**
   * A local printer. `oid` is the object's identity: two values with the same
   * `oid` are the same Python object at different times.
   */
  datatype Printer = Printer(
    oid: nat,
    key: Uuid,
    name: string,
    machineType: string,
    state: string,
    firmwareVersion: string,
    extruders: seq<Extruder>)

  /** The state shown for a printer the cluster reports as not enabled. */
  const DisabledState := "disabled"

  /** Field values a freshly constructed printer or extruder starts with. */
  const InitialPrinterState := "unknown"
  const InitialExtruder := Extruder("", None)

  function RemoteUuid(r: RemotePrinter): Uuid { r.uuid }

  /** The keys of the local printer list. */
  function Keys(ps: seq<Printer>): set<Uuid> { set i | 0 <= i < |ps| :: ps[i].key }

  /** No two local printers share a key. */
  predicate UniqueKeys(ps: seq<Printer>)
  {
    forall i, j :: 0 <= i < j < |ps| ==> ps[i].key != ps[j].key
  }

  /** The uuids of a snapshot. */
  function Uuids(rs: seq<RemotePrinter>): set<Uuid> { set i | 0 <= i < |rs| :: rs[i].uuid }

  /** A snapshot indexed by uuid; a repeated uuid keeps its last entry. */
  function Index(rs: seq<RemotePrinter>): (m: map<Uuid, RemotePrinter>)
    ensures m.Keys == Uuids(rs)
    ensures forall k :: k in m ==> m[k].uuid == k && m[k] in rs
    ensures LastWins(rs, RemoteUuid, m)
  {
    var m := KeyIndex(rs, RemoteUuid);
    assert m.Keys == Uuids(rs) by {
      forall k | k in Uuids(rs) ensures k in KeySetOf(rs, RemoteUuid) {
        var i :| 0 <= i < |rs| && rs[i].uuid == k;
        assert RemoteUuid(rs[i]) == k;
      }
    }
    forall k | k in m ensures m[k].uuid == k && m[k] in rs {
      KeyIndexSound(rs, RemoteUuid, k);
    }
    m
  }

  /** `n` freshly constructed extruders. */
  function BlankExtruders(n: nat): (r: seq<Extruder>)
    ensures |r| == n
    ensures forall i :: 0 <= i < n ==> r[i] == InitialExtruder
  {
    if n == 0 then [] else BlankExtruders(n - 1) + [InitialExtruder]
  }

  /** A new printer object with one blank extruder per reported configuration. */
  function NewPrinter(oid: nat, r: RemotePrinter): (p: Printer)
    ensures p.oid == oid && p.firmwareVersion == r.firmwareVersion && p.state == InitialPrinterState
    ensures |p.extruders| == |r.configuration| && forall i :: 0 <= i < |p.extruders| ==> p.extruders[i] == InitialExtruder
  {
    Printer(oid, "", "", "", InitialPrinterState, r.firmwareVersion, BlankExtruders(|r.configuration|))
  }

  /** The material must be resolved again: none is shown, or it has another guid. */
  predicate NeedsMaterial(e: Extruder, cfg: RemoteExtruder)
  {
    e.activeMaterial.None? || e.activeMaterial.value.guid != cfg.material.guid
  }

  /**
   * One extruder updated from its configuration: the reported hotend, and a
   * material of the reported guid, kept when it already had that guid.
   */
  function UpdateExtruder(e: Extruder, cfg: RemoteExtruder, catalog: Catalog): (u: Extruder)
    ensures u.hotendId == cfg.printCoreId
    ensures u.activeMaterial.Some? && u.activeMaterial.value.guid == cfg.material.guid
    ensures !NeedsMaterial(e, cfg) ==> u.activeMaterial == e.activeMaterial
    ensures NeedsMaterial(e, cfg) ==> u.activeMaterial == Some(CreateMaterial(cfg.material, catalog))
  {
    Extruder(
      cfg.printCoreId,
      if NeedsMaterial(e, cfg) then Some(CreateMaterial(cfg.material, catalog)) else e.activeMaterial)
  }

  /**
   * The extruder loop: walks the reported configurations and stops at the
   * first index the printer has no extruder for, so exactly the indices below
   * the shorter length are updated and the rest are left as they were.
   */
  function UpdateExtruders(es: seq<Extruder>, cfgs: seq<RemoteExtruder>, catalog: Catalog): (r: seq<Extruder>)
    ensures |r| == |es|
    ensures forall i :: 0 <= i < |es| && i < |cfgs| ==> r[i] == UpdateExtruder(es[i], cfgs[i], catalog)
    ensures forall i :: |cfgs| <= i < |es| ==> r[i] == es[i]
    decreases |es|
  {
    if |es| == 0 || |cfgs| == 0 then es
    else
      var rest := UpdateExtruders(es[1..], cfgs[1..], catalog);
      assert forall i :: 1 <= i < |es| ==> es[1..][i - 1] == es[i];
      assert forall i :: 1 <= i < |cfgs| ==> cfgs[1..][i - 1] == cfgs[i];
      [UpdateExtruder(es[0], cfgs[0], catalog)] + rest
  }

  /**
   * What a printer shows after being updated from snapshot `r`: its key, name
   * and type are the snapshot's, its state is the reported status or, when the
   * printer is not enabled, "disabled"; every extruder that has a reported
   * configuration shows that configuration's hotend and a material of that
   * configuration's guid.
   */
  ghost predicate Reflects(p: Printer, r: RemotePrinter)
  {
    && p.key == r.uuid
    && p.name == r.friendlyName
    && p.machineType == r.machineVariant
    && (r.enabled ==> p.state == r.status)
    && (!r.enabled ==> p.state == DisabledState)
    && forall i :: 0 <= i < |p.extruders| && i < |r.configuration| ==>
         && p.extruders[i].hotendId == r.configuration[i].printCoreId
         && p.extruders[i].activeMaterial.Some?
         && p.extruders[i].activeMaterial.value.guid == r.configuration[i].material.guid
  }

  /**
   * Updates one printer in place from its snapshot: the same object, showing
   * what the snapshot reports, with its extruder list neither replaced nor
   * resized and only the extruders with a reported configuration touched.
   */
  function UpdatePrinter(p: Printer, r: RemotePrinter, catalog: Catalog): (q: Printer)
    ensures q.oid == p.oid && q.firmwareVersion == p.firmwareVersion
    ensures Reflects(q, r)
    ensures |q.extruders| == |p.extruders|
    ensures forall i :: |r.configuration| <= i < |p.extruders| ==> q.extruders[i] == p.extruders[i]
  {
    p.(
      key := r.uuid,
      name := r.friendlyName,
      machineType := r.machineVariant,
      state := if r.enabled then r.status else DisabledState,
      extruders := UpdateExtruders(p.extruders, r.configuration, catalog))
  }

  /**
   * A touched extruder keeps its material when that material already has the
   * reported guid, and gets a freshly resolved one otherwise.
   */
  lemma UpdatePrinterMaterials(p: Printer, r: RemotePrinter, catalog: Catalog, i: nat)
    requires i < |p.extruders| && i < |r.configuration|
    ensures var q := UpdatePrinter(p, r, catalog);
      && (!NeedsMaterial(p.extruders[i], r.configuration[i]) ==>
            q.extruders[i].activeMaterial == p.extruders[i].activeMaterial)
      && (NeedsMaterial(p.extruders[i], r.configuration[i]) ==>
            q.extruders[i].activeMaterial == Some(CreateMaterial(r.configuration[i].material, catalog)))
  {
    assert UpdatePrinter(p, r, catalog).extruders[i] == UpdateExtruder(p.extruders[i], r.configuration[i], catalog);
  }

  /** A second update from the same snapshot changes nothing: no material is resolved again. */
  lemma UpdatePrinterIdempotent(p: Printer, r: RemotePrinter, catalog: Catalog)
    ensures UpdatePrinter(UpdatePrinter(p, r, catalog), r, catalog) == UpdatePrinter(p, r, catalog)
  {
    var q := UpdatePrinter(p, r, catalog);
    var q2 := UpdatePrinter(q, r, catalog);
    assert q2.extruders == q.extruders by {
      forall i | 0 <= i < |q.extruders| ensures q2.extruders[i] == q.extruders[i] {
        if i < |r.configuration| {
          assert !NeedsMaterial(q.extruders[i], r.configuration[i]);
          assert q2.extruders[i] == UpdateExtruder(q.extruders[i], r.configuration[i], catalog);
        }
      }
    }
  }

  /** The result of one printer reconciliation. */
  datatype PrinterSync = PrinterSync(printers: seq<Printer>, nextId: nat)

  /** Every object identity in the list was handed out before `bound`. */
  ghost predicate OidsBelow(ps: seq<Printer>, bound: nat)
  {
    forall i :: 0 <= i < |ps| ==> ps[i].oid < bound
  }

  /** No object appears twice in the list. */
  ghost predicate DistinctOids(ps: seq<Printer>)
  {
    forall i, j :: 0 <= i < j < |ps| ==> ps[i].oid != ps[j].oid
  }

  /** Keys of a concatenation. */
  lemma KeysConcat(a: seq<Printer>, b: seq<Printer>)
    ensures Keys(a + b) == Keys(a) + Keys(b)
  {
    forall k | k in Keys(a + b) ensures k in Keys(a) + Keys(b) {
      var j :| 0 <= j < |a + b| && (a + b)[j].key == k;
      if j < |a| { assert (a + b)[j] == a[j]; } else { assert (a + b)[j] == b[j - |a|]; }
    }
    forall k | k in Keys(a) + Keys(b) ensures k in Keys(a + b) {
      if k in Keys(a) {
        var j :| 0 <= j < |a| && a[j].key == k;
        assert (a + b)[j] == a[j];
      } else {
        var j :| 0 <= j < |b| && b[j].key == k;
        assert (a + b)[|a| + j] == b[j];
      }
    }
  }

  /** The keys of a one-printer list. */
  lemma KeysSingleton(p: Printer)
    ensures Keys([p]) == {p.key}
  {
    assert [p][0] == p;
  }

  /** Concatenating two key-disjoint lists with unique keys keeps keys unique. */
  lemma UniqueConcat(a: seq<Printer>, b: seq<Printer>)
    requires UniqueKeys(a) && UniqueKeys(b) && Keys(a) !! Keys(b)
    ensures UniqueKeys(a + b)
  {
    forall i, j | 0 <= i < j < |a + b| ensures (a + b)[i].key != (a + b)[j].key {
      if j < |a| {
        assert (a + b)[i] == a[i] && (a + b)[j] == a[j];
      } else if i >= |a| {
        assert (a + b)[i] == b[i - |a|] && (a + b)[j] == b[j - |a|];
      } else {
        assert (a + b)[i] == a[i] && (a + b)[j] == b[j - |a|];
        assert a[i].key in Keys(a) && b[j - |a|].key in Keys(b);
      }
    }
  }

  /**
   * The printers updated in place: those whose key the snapshot still lists,
   * in list order, each updated from its snapshot entry.
   */
  function UpdatedSurvivors(ps: seq<Printer>, index: map<Uuid, RemotePrinter>, catalog: Catalog): (r: seq<Printer>)
    ensures |r| <= |ps|
  {
    if |ps| == 0 then []
    else if ps[0].key in index then
      [UpdatePrinter(ps[0], index[ps[0].key], catalog)] + UpdatedSurvivors(ps[1..], index, catalog)
    else UpdatedSurvivors(ps[1..], index, catalog)
  }

  /** `q` is some printer of `ps` whose key the snapshot lists, updated from its entry. */
  ghost predicate UpdatedFrom(ps: seq<Printer>, index: map<Uuid, RemotePrinter>, catalog: Catalog, q: Printer)
  {
    exists i :: 0 <= i < |ps| && ps[i].key in index && q == UpdatePrinter(ps[i], index[ps[i].key], catalog)
  }

  /** Every survivor is an old printer updated from its snapshot entry. */
  lemma {:induction false} SurvivorsFrom(ps: seq<Printer>, index: map<Uuid, RemotePrinter>, catalog: Catalog)
    ensures forall j :: 0 <= j < |UpdatedSurvivors(ps, index, catalog)| ==>
      UpdatedFrom(ps, index, catalog, UpdatedSurvivors(ps, index, catalog)[j])
  {
    if |ps| > 0 {
      var rest := UpdatedSurvivors(ps[1..], index, catalog);
      SurvivorsFrom(ps[1..], index, catalog);
      var r := UpdatedSurvivors(ps, index, catalog);
      var off := if ps[0].key in index then 1 else 0;
      assert r == (if ps[0].key in index then [UpdatePrinter(ps[0], index[ps[0].key], catalog)] else []) + rest;
      forall j | 0 <= j < |r| ensures UpdatedFrom(ps, index, catalog, r[j]) {
        if j < off {
          assert r[j] == UpdatePrinter(ps[0], index[ps[0].key], catalog);
        } else {
          assert r[j] == rest[j - off];
          assert UpdatedFrom(ps[1..], index, catalog, rest[j - off]);
          var i :| 0 <= i < |ps[1..]| && ps[1..][i].key in index &&
            rest[j - off] == UpdatePrinter(ps[1..][i], index[ps[1..][i].key], catalog);
          assert ps[i + 1] == ps[1..][i];
        }
      }
    }
  }

  /** Every old printer whose key the snapshot lists survives. */
  lemma {:induction false} SurvivorsCover(ps: seq<Printer>, index: map<Uuid, RemotePrinter>, catalog: Catalog)
    requires forall k :: k in index ==> index[k].uuid == k
    ensures Keys(ps) * index.Keys <= Keys(UpdatedSurvivors(ps, index, catalog))
  {
    if |ps| > 0 {
      var rest := UpdatedSurvivors(ps[1..], index, catalog);
      SurvivorsCover(ps[1..], index, catalog);
      var r := UpdatedSurvivors(ps, index, catalog);
      var head := if ps[0].key in index then [UpdatePrinter(ps[0], index[ps[0].key], catalog)] else [];
      assert r == head + rest;
      KeysConcat(head, rest);
      if ps[0].key in index { KeysSingleton(head[0]); }
      forall k | k in Keys(ps) * index.Keys ensures k in Keys(r) {
        var i :| 0 <= i < |ps| && ps[i].key == k;
        if i > 0 {
          assert ps[1..][i - 1] == ps[i];
          assert k in Keys(ps[1..]);
        }
      }
    }
  }

  /** Survivors keep the old list's order, so they keep its keys unique. */
  lemma {:induction false} SurvivorsUnique(ps: seq<Printer>, index: map<Uuid, RemotePrinter>, catalog: Catalog)
    requires forall k :: k in index ==> index[k].uuid == k
    requires UniqueKeys(ps)
    ensures UniqueKeys(UpdatedSurvivors(ps, index, catalog))
  {
    if |ps| > 0 {
      var rest := UpdatedSurvivors(ps[1..], index, catalog);
      SurvivorsUnique(ps[1..], index, catalog);
      if ps[0].key in index {
        var head := [UpdatePrinter(ps[0], index[ps[0].key], catalog)];
        KeysSingleton(head[0]);
        SurvivorsFrom(ps[1..], index, catalog);
        assert ps[0].key !in Keys(rest) by {
          if ps[0].key in Keys(rest) {
            var j :| 0 <= j < |rest| && rest[j].key == ps[0].key;
            assert UpdatedFrom(ps[1..], index, catalog, rest[j]);
            var i :| 0 <= i < |ps[1..]| && ps[1..][i].key in index &&
              rest[j] == UpdatePrinter(ps[1..][i], index[ps[1..][i].key], catalog);
          }
        }
        UniqueConcat(head, rest);
      }
    }
  }

  /**
   * What reconciliation needs of the survivors: unique keys, exactly the old
   * keys the snapshot still lists, each the same object as the old printer of
   * that key, updated from its snapshot entry.
   */
  lemma SurvivorsSpec(ps: seq<Printer>, index: map<Uuid, RemotePrinter>, catalog: Catalog)
    requires forall k :: k in index ==> index[k].uuid == k
    requires UniqueKeys(ps)
    ensures var r := UpdatedSurvivors(ps, index, catalog);
      && UniqueKeys(r)
      && Keys(r) == Keys(ps) * index.Keys
      && (forall i, j :: 0 <= i < |ps| && 0 <= j < |r| && ps[i].key == r[j].key ==>
            ps[i].key in index && r[j] == UpdatePrinter(ps[i], index[ps[i].key], catalog))
  {
    SurvivorsCover(ps, index, catalog);
    SurvivorsUnique(ps, index, catalog);
    SurvivorsMatch(ps, index, catalog);
    SurvivorsWithin(ps, index, catalog);
  }

  /** A survivor sharing a key with an old printer is that printer, updated. */
  lemma SurvivorsMatch(ps: seq<Printer>, index: map<Uuid, RemotePrinter>, catalog: Catalog)
    requires forall k :: k in index ==> index[k].uuid == k
    requires UniqueKeys(ps)
    ensures var r := UpdatedSurvivors(ps, index, catalog);
      forall i, j :: 0 <= i < |ps| && 0 <= j < |r| && ps[i].key == r[j].key ==>
        ps[i].key in index && r[j] == UpdatePrinter(ps[i], index[ps[i].key], catalog)
  {
    var r := UpdatedSurvivors(ps, index, catalog);
    SurvivorsFrom(ps, index, catalog);
    forall i, j | 0 <= i < |ps| && 0 <= j < |r| && ps[i].key == r[j].key
      ensures ps[i].key in index && r[j] == UpdatePrinter(ps[i], index[ps[i].key], catalog)
    {
      assert UpdatedFrom(ps, index, catalog, r[j]);
      var i' :| 0 <= i' < |ps| && ps[i'].key in index && r[j] == UpdatePrinter(ps[i'], index[ps[i'].key], catalog);
      assert ps[i'].key == ps[i].key;
    }
  }

  /** Every survivor's key is an old key the snapshot still lists. */
  lemma SurvivorsWithin(ps: seq<Printer>, index: map<Uuid, RemotePrinter>, catalog: Catalog)
    requires forall k :: k in index ==> index[k].uuid == k
    ensures Keys(UpdatedSurvivors(ps, index, catalog)) <= Keys(ps) * index.Keys
  {
    var r := UpdatedSurvivors(ps, index, catalog);
    SurvivorsFrom(ps, index, catalog);
    forall k | k in Keys(r) ensures k in Keys(ps) * index.Keys {
      var j :| 0 <= j < |r| && r[j].key == k;
      assert UpdatedFrom(ps, index, catalog, r[j]);
      var i :| 0 <= i < |ps| && ps[i].key in index && r[j] == UpdatePrinter(ps[i], index[ps[i].key], catalog);
    }
  }

  /**
   * The printers constructed for new uuids, in order, taking identities from
   * `nextId` on: the `i`-th is object `nextId + i`, updated from the `i`-th
   * new uuid's entry.
   */
  function ConstructNew(newIds: seq<Uuid>, index: map<Uuid, RemotePrinter>, nextId: nat, catalog: Catalog): (r: seq<Printer>)
    requires forall k :: k in newIds ==> k in index
    ensures |r| == |newIds|
  {
    seq(|newIds|, i requires 0 <= i < |newIds| =>
      UpdatePrinter(NewPrinter(nextId + i, index[newIds[i]]), index[newIds[i]], catalog))
  }

  /** A printer constructed and then updated from a snapshot entry shows that entry, with one extruder per configuration. */
  lemma NewPrinterShows(oid: nat, rp: RemotePrinter, catalog: Catalog)
    ensures var q := UpdatePrinter(NewPrinter(oid, rp), rp, catalog);
      q.key == rp.uuid && q.oid == oid && |q.extruders| == |rp.configuration| && Reflects(q, rp)
  {
  }

  /**
   * What reconciliation needs of the constructed printers: one per new uuid,
   * in that order, numbered from `nextId`, each with one extruder per reported
   * configuration and showing its snapshot entry.
   */
  lemma ConstructNewSpec(newIds: seq<Uuid>, index: map<Uuid, RemotePrinter>, nextId: nat, catalog: Catalog)
    requires forall k :: k in index ==> index[k].uuid == k
    requires forall k :: k in newIds ==> k in index
    requires forall i, j :: 0 <= i < j < |newIds| ==> newIds[i] != newIds[j]
    ensures var r := ConstructNew(newIds, index, nextId, catalog);
      && Keys(r) == (set k | k in newIds)
      && UniqueKeys(r)
      && (forall i :: 0 <= i < |r| ==> r[i].key == newIds[i] && r[i].oid == nextId + i)
      && (forall i :: 0 <= i < |r| ==> |r[i].extruders| == |index[newIds[i]].configuration|)
      && (forall i :: 0 <= i < |r| ==> Reflects(r[i], index[newIds[i]]))
  {
    var r := ConstructNew(newIds, index, nextId, catalog);
    forall i | 0 <= i < |r|
      ensures r[i].key == newIds[i] && r[i].oid == nextId + i
      ensures |r[i].extruders| == |index[newIds[i]].configuration|
      ensures Reflects(r[i], index[newIds[i]])
    {
      NewPrinterShows(nextId + i, index[newIds[i]], catalog);
    }
    forall k | k in newIds ensures k in Keys(r) {
      var i :| 0 <= i < |newIds| && newIds[i] == k;
      assert r[i].key == k;
    }
  }

  /**
   * The uuids of the snapshot that no local printer has, each once, in order
   * of first appearance: the printers to construct.
   */
  function NewUuids(ps: seq<Printer>, remote: seq<RemotePrinter>): (r: seq<Uuid>)
    ensures forall k :: k in r <==> k in Uuids(remote) && k !in Keys(ps)
    ensures forall i, j :: 0 <= i < j < |r| ==> r[i] != r[j]
  {
    var r := Enumerate(KeysOf(remote, RemoteUuid), Uuids(remote) - Keys(ps));
    assert forall k :: k in Uuids(remote) ==> k in KeysOf(remote, RemoteUuid) by {
      forall k | k in Uuids(remote) ensures k in KeysOf(remote, RemoteUuid) {
        var i :| 0 <= i < |remote| && remote[i].uuid == k;
        assert KeysOf(remote, RemoteUuid)[i] == k;
      }
    }
    r
  }

  /**
   * Reconciles the local printer list with a snapshot: printers whose key the
   * snapshot lacks are dropped, the others are updated in place, and one
   * printer is constructed per new uuid. Afterwards the keys are exactly the
   * snapshot's uuids, each once, and the counter has advanced by one per new
   * uuid.
   */
  function UpdatePrinters(ps: seq<Printer>, nextId: nat, remote: seq<RemotePrinter>, catalog: Catalog): (r: PrinterSync)
    requires UniqueKeys(ps)
    ensures Mirrors(r.printers, remote)
    ensures r.nextId == nextId + |Uuids(remote) - Keys(ps)|
  {
    var newIds := NewUuids(ps, remote);
    var all := UpdatedSurvivors(ps, Index(remote), catalog) + ConstructNew(newIds, Index(remote), nextId, catalog);
    ReconciledMirrors(ps, nextId, remote, catalog);
    NewUuidsCount(ps, remote);
    PrinterSync(all, nextId + |newIds|)
  }

  /** The list holds exactly the snapshot's printers: its keys are the snapshot's uuids, each once. */
  ghost predicate Mirrors(ps: seq<Printer>, remote: seq<RemotePrinter>)
  {
    Keys(ps) == Uuids(remote) && UniqueKeys(ps)
  }

  /** The survivors followed by the constructed printers mirror the snapshot. */
  lemma ReconciledMirrors(ps: seq<Printer>, nextId: nat, remote: seq<RemotePrinter>, catalog: Catalog)
    requires UniqueKeys(ps)
    ensures Mirrors(UpdatedSurvivors(ps, Index(remote), catalog) + ConstructNew(NewUuids(ps, remote), Index(remote), nextId, catalog), remote)
  {
    var newIds := NewUuids(ps, remote);
    var kept := UpdatedSurvivors(ps, Index(remote), catalog);
    var made := ConstructNew(newIds, Index(remote), nextId, catalog);
    SurvivorsSpec(ps, Index(remote), catalog);
    ConstructNewSpec(newIds, Index(remote), nextId, catalog);
    KeysConcat(kept, made);
    UniqueConcat(kept, made);
  }

  /** One new uuid per snapshot uuid without a local printer. */
  lemma NewUuidsCount(ps: seq<Printer>, remote: seq<RemotePrinter>)
    ensures |NewUuids(ps, remote)| == |Uuids(remote) - Keys(ps)|
  {
    var newIds := NewUuids(ps, remote);
    assert (set k | k in newIds) == Uuids(remote) - Keys(ps);
    DistinctCard(newIds);
  }

  /** In `kept + made`, exactly the printers of `kept` have a key seen before. */
  lemma KeptThenMade(ps: seq<Printer>, kept: seq<Printer>, made: seq<Printer>)
    requires Keys(kept) <= Keys(ps)
    requires Keys(made) !! Keys(ps)
    ensures forall j :: 0 <= j < |kept + made| ==> ((kept + made)[j].key in Keys(ps) <==> j < |kept|)
  {
    forall j | 0 <= j < |kept + made| ensures (kept + made)[j].key in Keys(ps) <==> j < |kept| {
      if j < |kept| {
        assert (kept + made)[j] == kept[j];
        assert kept[j].key in Keys(kept);
      } else {
        assert (kept + made)[j] == made[j - |kept|];
        assert made[j - |kept|].key in Keys(made);
      }
    }
  }

  /** After reconciliation every printer seen before comes ahead of every new one. */
  lemma UpdatePrintersOrder(ps: seq<Printer>, nextId: nat, remote: seq<RemotePrinter>, catalog: Catalog)
    requires UniqueKeys(ps)
    ensures var r := UpdatePrinters(ps, nextId, remote, catalog).printers;
      forall j1, j2 :: 0 <= j1 < |r| && 0 <= j2 < |r| && r[j1].key in Keys(ps) && r[j2].key !in Keys(ps) ==> j1 < j2
  {
    var newIds := NewUuids(ps, remote);
    var kept := UpdatedSurvivors(ps, Index(remote), catalog);
    var made := ConstructNew(newIds, Index(remote), nextId, catalog);
    SurvivorsSpec(ps, Index(remote), catalog);
    ConstructNewSpec(newIds, Index(remote), nextId, catalog);
    KeptThenMade(ps, kept, made);
  }

  /**
   * A printer whose key was known before reconciliation is the same object
   * afterwards, updated in place from its snapshot entry (so it keeps its
   * extruder list length); it is never constructed anew.
   */
  lemma UpdatePrintersKeepsIdentity(ps: seq<Printer>, nextId: nat, remote: seq<RemotePrinter>, catalog: Catalog)
    requires UniqueKeys(ps)
    ensures var r := UpdatePrinters(ps, nextId, remote, catalog).printers;
      forall i, j :: 0 <= i < |ps| && 0 <= j < |r| && ps[i].key == r[j].key ==>
        && ps[i].key in Index(remote)
        && r[j] == UpdatePrinter(ps[i], Index(remote)[ps[i].key], catalog)
        && r[j].oid == ps[i].oid
        && |r[j].extruders| == |ps[i].extruders|
  {
    var newIds := NewUuids(ps, remote);
    var kept := UpdatedSurvivors(ps, Index(remote), catalog);
    var made := ConstructNew(newIds, Index(remote), nextId, catalog);
    SurvivorsSpec(ps, Index(remote), catalog);
    ConstructNewSpec(newIds, Index(remote), nextId, catalog);
    KeptThenMade(ps, kept, made);
    var all := kept + made;
    forall i, j | 0 <= i < |ps| && 0 <= j < |all| && ps[i].key == all[j].key
      ensures ps[i].key in Index(remote) && all[j] == UpdatePrinter(ps[i], Index(remote)[ps[i].key], catalog)
    {
      assert ps[i].key in Keys(ps);
      assert all[j] == kept[j];
    }
  }

  /**
   * A printer with a new key is a new object, whose identity was never handed
   * out before, with one extruder per reported configuration.
   */
  lemma UpdatePrintersConstructsNew(ps: seq<Printer>, nextId: nat, remote: seq<RemotePrinter>, catalog: Catalog)
    requires UniqueKeys(ps)
    ensures var s := UpdatePrinters(ps, nextId, remote, catalog);
      forall j :: 0 <= j < |s.printers| && s.printers[j].key !in Keys(ps) ==>
        && s.printers[j].key in Index(remote)
        && nextId <= s.printers[j].oid < s.nextId
        && |s.printers[j].extruders| == |Index(remote)[s.printers[j].key].configuration|
  {
    var newIds := NewUuids(ps, remote);
    var index := Index(remote);
    var kept := UpdatedSurvivors(ps, index, catalog);
    var made := ConstructNew(newIds, index, nextId, catalog);
    SurvivorsSpec(ps, index, catalog);
    ConstructNewSpec(newIds, index, nextId, catalog);
    KeptThenMade(ps, kept, made);
    var all := kept + made;
    forall j | 0 <= j < |all| && all[j].key !in Keys(ps)
      ensures all[j].key in index && nextId <= all[j].oid < nextId + |newIds|
      ensures |all[j].extruders| == |index[all[j].key].configuration|
    {
      assert all[j] == made[j - |kept|];
    }
  }

  /** Every printer afterwards shows what its snapshot entry reports. */
  lemma UpdatePrintersReflects(ps: seq<Printer>, nextId: nat, remote: seq<RemotePrinter>, catalog: Catalog)
    requires UniqueKeys(ps)
    ensures var r := UpdatePrinters(ps, nextId, remote, catalog).printers;
      forall j :: 0 <= j < |r| ==> r[j].key in Index(remote) && Reflects(r[j], Index(remote)[r[j].key])
  {
    var newIds := NewUuids(ps, remote);
    var index := Index(remote);
    var kept := UpdatedSurvivors(ps, index, catalog);
    var made := ConstructNew(newIds, index, nextId, catalog);
    SurvivorsReflect(ps, index, catalog);
    MadeReflect(newIds, index, nextId, catalog);
    var all := kept + made;
    forall j | 0 <= j < |all| ensures all[j].key in index && Reflects(all[j], index[all[j].key]) {
      if j < |kept| {
        assert all[j] == kept[j];
      } else {
        assert all[j] == made[j - |kept|];
      }
    }
  }

  /** Each printer of `r` has a snapshot entry and shows what that entry reports. */
  ghost predicate AllReflect(r: seq<Printer>, index: map<Uuid, RemotePrinter>)
  {
    forall j :: 0 <= j < |r| ==> r[j].key in index && Reflects(r[j], index[r[j].key])
  }

  /** Every survivor shows what its snapshot entry reports. */
  lemma SurvivorsReflect(ps: seq<Printer>, index: map<Uuid, RemotePrinter>, catalog: Catalog)
    requires forall k :: k in index ==> index[k].uuid == k
    ensures AllReflect(UpdatedSurvivors(ps, index, catalog), index)
  {
    var kept := UpdatedSurvivors(ps, index, catalog);
    SurvivorsFrom(ps, index, catalog);
    forall j | 0 <= j < |kept| ensures kept[j].key in index && Reflects(kept[j], index[kept[j].key]) {
      assert UpdatedFrom(ps, index, catalog, kept[j]);
      var i :| 0 <= i < |ps| && ps[i].key in index && kept[j] == UpdatePrinter(ps[i], index[ps[i].key], catalog);
    }
  }

  /** Every constructed printer shows what its snapshot entry reports. */
  lemma MadeReflect(newIds: seq<Uuid>, index: map<Uuid, RemotePrinter>, nextId: nat, catalog: Catalog)
    requires forall k :: k in index ==> index[k].uuid == k
    requires forall k :: k in newIds ==> k in index
    requires forall i, j :: 0 <= i < j < |newIds| ==> newIds[i] != newIds[j]
    ensures AllReflect(ConstructNew(newIds, index, nextId, catalog), index)
  {
    var made := ConstructNew(newIds, index, nextId, catalog);
    ConstructNewSpec(newIds, index, nextId, catalog);
    forall m | 0 <= m < |made| ensures made[m].key in index && Reflects(made[m], index[made[m].key]) {
      assert made[m].key == newIds[m] && newIds[m] in newIds;
    }
  }

  /** The printers kept in place are objects of the old list, each once. */
  lemma SurvivorOids(ps: seq<Printer>, index: map<Uuid, RemotePrinter>, catalog: Catalog, bound: nat)
    requires forall k :: k in index ==> index[k].uuid == k
    requires UniqueKeys(ps)
    requires OidsBelow(ps, bound) && DistinctOids(ps)
    ensures var kept := UpdatedSurvivors(ps, index, catalog);
      OidsBelow(kept, bound) && DistinctOids(kept)
  {
    var kept := UpdatedSurvivors(ps, index, catalog);
    SurvivorsFrom(ps, index, catalog);
    SurvivorsUnique(ps, index, catalog);
    forall j | 0 <= j < |kept| ensures kept[j].oid < bound {
      assert UpdatedFrom(ps, index, catalog, kept[j]);
      var i :| 0 <= i < |ps| && ps[i].key in index && kept[j] == UpdatePrinter(ps[i], index[ps[i].key], catalog);
    }
    forall i, j | 0 <= i < j < |kept| ensures kept[i].oid != kept[j].oid {
      assert UpdatedFrom(ps, index, catalog, kept[i]) && UpdatedFrom(ps, index, catalog, kept[j]);
      var i' :| 0 <= i' < |ps| && ps[i'].key in index && kept[i] == UpdatePrinter(ps[i'], index[ps[i'].key], catalog);
      var j' :| 0 <= j' < |ps| && ps[j'].key in index && kept[j] == UpdatePrinter(ps[j'], index[ps[j'].key], catalog);
      assert kept[i].key != kept[j].key;
    }
  }

  /** Old objects followed by objects numbered from the old counter on: all distinct, all below the new counter. */
  lemma ConcatOids(kept: seq<Printer>, made: seq<Printer>, nextId: nat)
    requires OidsBelow(kept, nextId) && DistinctOids(kept)
    requires forall i :: 0 <= i < |made| ==> made[i].oid == nextId + i
    ensures OidsBelow(kept + made, nextId + |made|) && DistinctOids(kept + made)
  {
    var all := kept + made;
    forall j | 0 <= j < |all| ensures all[j].oid < nextId + |made| {
      if j < |kept| { assert all[j] == kept[j]; } else { assert all[j] == made[j - |kept|]; }
    }
    forall i, j | 0 <= i < j < |all| ensures all[i].oid != all[j].oid {
      if j >= |kept| && i < |kept| {
        assert all[i] == kept[i] && all[j] == made[j - |kept|];
      } else if i >= |kept| {
        assert all[i] == made[i - |kept|] && all[j] == made[j - |kept|];
      } else {
        assert all[i] == kept[i] && all[j] == kept[j];
      }
    }
  }

  /**
   * Identities stay below the allocation counter and no object appears twice,
   * provided that held before.
   */
  lemma UpdatePrintersOids(ps: seq<Printer>, nextId: nat, remote: seq<RemotePrinter>, catalog: Catalog)
    requires UniqueKeys(ps)
    requires OidsBelow(ps, nextId) && DistinctOids(ps)
    ensures var s := UpdatePrinters(ps, nextId, remote, catalog);
      OidsBelow(s.printers, s.nextId) && DistinctOids(s.printers) && nextId <= s.nextId
  {
    var newIds := NewUuids(ps, remote);
    var index := Index(remote);
    SurvivorOids(ps, index, catalog, nextId);
    ConstructNewSpec(newIds, index, nextId, catalog);
    ConcatOids(UpdatedSurvivors(ps, index, catalog), ConstructNew(newIds, index, nextId, catalog), nextId);
  }
}
