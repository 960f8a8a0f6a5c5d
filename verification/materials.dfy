/**
 * Resolution of an extruder's remote material descriptor into the material
 * shown for that extruder: prefer a catalog group, read-only groups first and
 * ties broken by name, else fall back to the fields the cluster reported.
 */
module Materials {
  import opened Base

  /** The material block of one remote extruder configuration. */
  datatype RemoteMaterial = RemoteMaterial(guid: string, brand: string, color: string, material: string)

  /** Metadata of a catalog group's root container. */
  datatype Container = Container(colorCode: string, brand: string, material: string, name: string)

  /** One catalog group sharing a material guid. */
  datatype MaterialGroup = MaterialGroup(isReadOnly: bool, name: string, root: Container)

  /** The material attached to a local extruder. */
  datatype Material = Material(guid: string, materialType: string, brand: string, color: string, name: string)

  /**
   * The local material catalog, as groups per guid. A guid without an entry
   * stands for the catalog answering None (or an empty list).
   */
  type Catalog = map<string, seq<MaterialGroup>>

  const EmptyMaterial := "empty"
  const EmptyName := "Empty"
  const UnknownName := "Unknown"

  function GroupsFor(catalog: Catalog, guid: string): seq<MaterialGroup>
  {
    if guid in catalog then catalog[guid] else []
  }

  /** The groups whose read-only flag is `readOnly`, in catalog order. */
  function WithReadOnly(gs: seq<MaterialGroup>, readOnly: bool): (r: seq<MaterialGroup>)
    ensures forall g :: g in r <==> g in gs && g.isReadOnly == readOnly
  {
    if |gs| == 0 then []
    else
      var r0 := WithReadOnly(gs[..|gs| - 1], readOnly);
      var g := gs[|gs| - 1];
      assert gs == gs[..|gs| - 1] + [g];
      if g.isReadOnly == readOnly then r0 + [g] else r0
  }

  /** Every group is read-only or not, so the two filters share out the list. */
  lemma {:induction false} WithReadOnlySplits(gs: seq<MaterialGroup>)
    ensures |WithReadOnly(gs, true)| + |WithReadOnly(gs, false)| == |gs|
  {
    if |gs| > 0 {
      WithReadOnlySplits(gs[..|gs| - 1]);
    }
  }

  /**
   * The filter keeps list order and multiplicity: it distributes over
   * concatenation and keeps a single group iff its flag matches.
   */
  lemma {:induction false} WithReadOnlyAppend(a: seq<MaterialGroup>, b: seq<MaterialGroup>, readOnly: bool)
    ensures WithReadOnly(a + b, readOnly) == WithReadOnly(a, readOnly) + WithReadOnly(b, readOnly)
    decreases |b|
  {
    if |b| == 0 {
      assert a + b == a;
    } else {
      var b0 := b[..|b| - 1];
      var x := b[|b| - 1];
      var fa, fb0, fx := WithReadOnly(a, readOnly), WithReadOnly(b0, readOnly), WithReadOnly([x], readOnly);
      calc {
        WithReadOnly(a + b, readOnly);
        { assert a + b == (a + b0) + [x]; }
        WithReadOnly((a + b0) + [x], readOnly);
        { WithReadOnlySnoc(a + b0, x, readOnly); }
        WithReadOnly(a + b0, readOnly) + fx;
        { WithReadOnlyAppend(a, b0, readOnly); }
        (fa + fb0) + fx;
        { assert (fa + fb0) + fx == fa + (fb0 + fx); }
        fa + (fb0 + fx);
        { WithReadOnlySnoc(b0, x, readOnly); assert b == b0 + [x]; }
        fa + WithReadOnly(b, readOnly);
      }
    }
  }

  lemma WithReadOnlySnoc(gs: seq<MaterialGroup>, g: MaterialGroup, readOnly: bool)
    ensures WithReadOnly(gs + [g], readOnly) == WithReadOnly(gs, readOnly) + WithReadOnly([g], readOnly)
  {
    assert (gs + [g])[..|gs + [g]| - 1] == gs;
    WithReadOnlyOne(g, readOnly);
  }

  /** A single group is kept iff it passes the filter. */
  lemma WithReadOnlyOne(g: MaterialGroup, readOnly: bool)
    ensures WithReadOnly([g], readOnly) == if g.isReadOnly == readOnly then [g] else []
  {
    assert [g][..0] == [];
  }

  /**
   * `g` is what a stable sort of `gs` by name puts first: its name is minimal
   * and no earlier group has the same name.
   */
  ghost predicate FirstByName(gs: seq<MaterialGroup>, g: MaterialGroup)
  {
    exists i :: 0 <= i < |gs| && gs[i] == g &&
      (forall j :: 0 <= j < |gs| ==> LexLe(g.name, gs[j].name)) &&
      (forall j :: 0 <= j < i ==> gs[j].name != g.name)
  }

  /** `sorted(gs, key = name)[0]`. */
  function MinByName(gs: seq<MaterialGroup>): (g: MaterialGroup)
    requires |gs| > 0
    ensures FirstByName(gs, g)
  {
    if |gs| == 1 then
      LexLeRefl(gs[0].name);
      gs[0]
    else
      var m := MinByName(gs[1..]);
      var i :| 0 <= i < |gs[1..]| && gs[1..][i] == m &&
        (forall j :: 0 <= j < |gs[1..]| ==> LexLe(m.name, gs[1..][j].name)) &&
        (forall j :: 0 <= j < i ==> gs[1..][j].name != m.name);
      if LexLe(gs[0].name, m.name) then
        LexLeRefl(gs[0].name);
        assert forall j :: 0 <= j < |gs| ==> LexLe(gs[0].name, gs[j].name) by {
          forall j | 0 <= j < |gs| ensures LexLe(gs[0].name, gs[j].name) {
            if j > 0 {
              assert gs[j] == gs[1..][j - 1];
              LexLeTrans(gs[0].name, m.name, gs[j].name);
            }
          }
        }
        gs[0]
      else
        LexLeTotal(gs[0].name, m.name);
        assert gs[i + 1] == m;
        assert forall j :: 0 <= j < |gs| ==> LexLe(m.name, gs[j].name) by {
          forall j | 0 <= j < |gs| ensures LexLe(m.name, gs[j].name) {
            if j > 0 { assert gs[j] == gs[1..][j - 1]; }
          }
        }
        assert forall j :: 0 <= j < i + 1 ==> gs[j].name != m.name by {
          forall j | 0 <= j < i + 1 ensures gs[j].name != m.name {
            if j > 0 { assert gs[j] == gs[1..][j - 1]; }
            else { if gs[0].name == m.name { LexLeRefl(m.name); } }
          }
        }
        m
  }

  /** The group chosen among all groups listed for one guid. */
  function ChooseGroup(gs: seq<MaterialGroup>): (r: Option<MaterialGroup>)
    ensures r.None? <==> |gs| == 0
    ensures r.Some? ==> r.value in gs
    ensures (exists g :: g in gs && g.isReadOnly) ==>
      r.Some? && r.value.isReadOnly && FirstByName(WithReadOnly(gs, true), r.value)
    ensures (forall g :: g in gs ==> !g.isReadOnly) && |gs| > 0 ==>
      r.Some? && FirstByName(WithReadOnly(gs, false), r.value)
  {
    var readOnly := WithReadOnly(gs, true);
    var others := WithReadOnly(gs, false);
    WithReadOnlySplits(gs);
    if |readOnly| > 0 then
      var g := MinByName(readOnly);
      assert g in readOnly;
      Some(g)
    else if |others| > 0 then
      var g := MinByName(others);
      assert g in others;
      assert !g.isReadOnly;
      Some(g)
    else
      None
  }

  /** The material built from a chosen catalog group. */
  function FromGroup(guid: string, g: MaterialGroup): Material
  {
    Material(guid, g.root.material, g.root.brand, g.root.colorCode, g.root.name)
  }

  /** The material built from the cluster's own fields when the catalog has nothing. */
  function FromRemote(m: RemoteMaterial): Material
  {
    Material(m.guid, m.material, m.brand, m.color, if m.material == EmptyMaterial then EmptyName else UnknownName)
  }

  /**
   * Resolves a remote material: the guid is always the remote guid; with a
   * read-only catalog group on offer the fields come from the read-only group
   * a stable sort by name puts first, else from the non-read-only group sorted
   * first; with no group at all they come from the remote fields, named "Empty"
   * exactly for the "empty" material and "Unknown" otherwise.
   */
  function CreateMaterial(m: RemoteMaterial, catalog: Catalog): (r: Material)
    ensures r.guid == m.guid
    ensures (exists g :: g in GroupsFor(catalog, m.guid) && g.isReadOnly) ==>
      exists c: MaterialGroup :: c.isReadOnly && FirstByName(WithReadOnly(GroupsFor(catalog, m.guid), true), c) &&
        r == FromGroup(m.guid, c)
    ensures (forall g :: g in GroupsFor(catalog, m.guid) ==> !g.isReadOnly) && |GroupsFor(catalog, m.guid)| > 0 ==>
      exists c: MaterialGroup :: !c.isReadOnly && FirstByName(WithReadOnly(GroupsFor(catalog, m.guid), false), c) &&
        r == FromGroup(m.guid, c)
    ensures |GroupsFor(catalog, m.guid)| == 0 ==>
      r.color == m.color && r.brand == m.brand && r.materialType == m.material &&
      (r.name == EmptyName <==> m.material == EmptyMaterial) &&
      (r.name == UnknownName <==> m.material != EmptyMaterial)
  {
    match ChooseGroup(GroupsFor(catalog, m.guid))
    case Some(g) => FromGroup(m.guid, g)
    case None => FromRemote(m)
  }

  /**
   * The group a stable sort puts first is unique, so the choice above leaves
   * nothing open.
   */
  lemma FirstByNameUnique(gs: seq<MaterialGroup>, a: MaterialGroup, b: MaterialGroup)
    requires FirstByName(gs, a) && FirstByName(gs, b)
    ensures a == b
  {
    var i :| 0 <= i < |gs| && gs[i] == a &&
      (forall j :: 0 <= j < |gs| ==> LexLe(a.name, gs[j].name)) &&
      (forall j :: 0 <= j < i ==> gs[j].name != a.name);
    var k :| 0 <= k < |gs| && gs[k] == b &&
      (forall j :: 0 <= j < |gs| ==> LexLe(b.name, gs[j].name)) &&
      (forall j :: 0 <= j < k ==> gs[j].name != b.name);
    assert LexLe(a.name, gs[k].name) && LexLe(b.name, gs[i].name);
    LexLeAntisym(a.name, b.name);
  }
}
