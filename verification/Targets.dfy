/**
 Publishing one client's range as a SCSI target (service/block-target.c): a device-mapper
 device, then the directories and attributes of the target, then one symbolic link.

 The kernel objects of one client are a value, `Tree`; each step takes it and gives it back.
 Every step may fail, an attribute write may even fail after it took effect, and every step of
 a rollback may fail.
 */
module Targets {
  import opened Policy

  /** The kernel objects.  Enabled and Nexus are attributes of Core and Group. */
  datatype Node = Mapper | Dev | Core | Enabled | Target | Group | Lun | Nexus | Link

  /** Which objects exist, and what the mapper device maps once its table is loaded. */
  datatype Tree = Tree(nodes: set<Node>, table: seq<Linear>, active: bool)

  const NOTHING := Tree({}, [], false)

  predicate Has(t: Tree, n: Node) { n in t.nodes }

  /** Objects live inside others: no LUN without its group, and so on. */
  predicate TreeOk(t: Tree) {
    && (Has(t, Group) ==> Has(t, Target)) && (Has(t, Lun) ==> Has(t, Group)) && (Has(t, Nexus) ==> Has(t, Group))
    && (Has(t, Enabled) ==> Has(t, Core)) && (Has(t, Link) ==> Has(t, Lun) && Has(t, Core))
    && (!Has(t, Mapper) ==> t.table == [] && !t.active)
  }

  function With(t: Tree, n: Node): Tree { t.(nodes := t.nodes + {n}) }

  function Without(t: Tree, n: Node): Tree { t.(nodes := t.nodes - {n}) }

  /** What the objects of a published target look like. */
  predicate Published(t: Tree, table: Linear) {
    t.nodes == {Mapper, Dev, Core, Enabled, Target, Group, Lun, Nexus, Link} && t.table == [table] && t.active
  }

  /** mkdir: it fails on what exists. */
  method Make(t: Tree, n: Node) returns (ok: bool, r: Tree)
    ensures r == if ok then With(t, n) else t
    ensures ok ==> !Has(t, n)
  {
    ok := *;
    if Has(t, n) { ok := false; }
    r := if ok then With(t, n) else t;
  }

  /** An attribute write; a failure may come after the effect. */
  method Write(t: Tree, n: Node) returns (ok: bool, r: Tree)
    ensures r == t || r == With(t, n)
    ensures ok ==> r == With(t, n)
  {
    ok := *;
    var took: bool := *;
    r := if ok || took then With(t, n) else t;
  }

  /** What still stands in a directory that rmdir would have to remove, apart from attributes. */
  predicate Holds(t: Tree, n: Node) {
    match n
    case Lun => Has(t, Link)
    case Group => Has(t, Lun)
    case Target => Has(t, Group)
    case Core => Has(t, Link)
    case _ => false
  }

  function Attributes(n: Node): set<Node> {
    match n
    case Group => {Nexus}
    case Core => {Enabled}
    case _ => {}
  }

  /** rmdir: it fails on what holds another object, and takes the attributes along. */
  method Remove(t: Tree, n: Node) returns (ok: bool, r: Tree)
    ensures r == if ok then t.(nodes := t.nodes - {n} - Attributes(n)) else t
    ensures ok ==> !Holds(t, n)
  {
    ok := *;
    if Holds(t, n) { ok := false; }
    r := if ok then t.(nodes := t.nodes - {n} - Attributes(n)) else t;
  }

  /** The directories made by the first `made` stages of `target_create`. */
  function Stage(made: nat): set<Node> {
    (if made >= 1 then {Core} else {}) + (if made >= 2 then {Target} else {})
    + (if made >= 3 then {Group} else {}) + (if made >= 4 then {Lun} else {})
  }

  /** The attributes that stage may have set. */
  function Settings(made: nat): set<Node> {
    (if made >= 1 then {Enabled} else {}) + (if made >= 4 then {Nexus} else {})
  }

  /** t with the first `made` stages and possibly some of the attributes in them. */
  predicate Built(t: Tree, made: nat, r: Tree) {
    && r.table == t.table && r.active == t.active
    && Stage(made) !! t.nodes
    && t.nodes + Stage(made) <= r.nodes <= t.nodes + Stage(made) + Settings(made)
    && made <= 5 && TreeOk(r) && (made >= 5 ==> Has(r, Nexus)) && (made >= 2 ==> Has(r, Enabled))
  }

  /** The forward part of `target_create`: how far it got, and whether it published. */
  method Build(t: Tree) returns (made: nat, ok: bool, r: Tree)
    requires TreeOk(t) && !Has(t, Link)
    ensures !ok ==> Built(t, made, r) && !Has(r, Link)
    ensures ok ==> made == 5 && r == t.(nodes := t.nodes + Stage(5) + {Enabled, Nexus, Link}) && Stage(5) !! t.nodes
  {
    made, r := 0, t;
    ok, r := Make(r, Core);
    if !ok { return; }
    made := 1;
    ok := *; // the control attribute
    if !ok { return; }
    ok, r := Write(r, Enabled);
    if !ok { return; }
    ok, r := Make(r, Target);
    if !ok { return; }
    made := 2;
    ok, r := Make(r, Group);
    if !ok { return; }
    made := 3;
    ok, r := Make(r, Lun);
    if !ok { return; }
    made := 4;
    ok, r := Write(r, Nexus);
    if !ok { return; }
    made := 5;
    ok := *; // the symbolic link
    if ok { r := With(r, Link); }
  }

  /** The rollback of `target_create`; clean says that every step it tried succeeded. */
  method Undo(t: Tree, made: nat, built: Tree) returns (clean: bool, r: Tree)
    requires TreeOk(t) && Built(t, made, built) && !Has(built, Link)
    ensures t.nodes <= r.nodes <= built.nodes && r.table == t.table && r.active == t.active && TreeOk(r)
    ensures clean ==> r == t
  {
    clean, r := true, built;
    var ok;
    if made >= 5 {
      ok := *; // NULL into the nexus
      if ok { r := Without(r, Nexus); }
      clean := clean && ok;
    }
    if made >= 4 { ok, r := Remove(r, Lun); clean := clean && ok; }
    if made >= 3 { ok, r := Remove(r, Group); clean := clean && ok; }
    if made >= 2 { ok, r := Remove(r, Target); clean := clean && ok; }
    if made >= 1 { ok, r := Remove(r, Core); clean := clean && ok; }
    assert clean ==> r.nodes == t.nodes;
  }

  /** `target_create`.  The link is its only publication; a failure never leaves one, never takes
      away what was there before, and after a clean rollback leaves no trace. */
  method TargetCreate(t: Tree) returns (ok: bool, clean: bool, r: Tree)
    requires TreeOk(t) && !Has(t, Link)
    ensures TreeOk(r) && (ok <==> Has(r, Link)) && r.table == t.table && r.active == t.active
    ensures ok ==>
              && r.nodes == t.nodes + {Core, Enabled, Target, Group, Lun, Nexus, Link}
              && {Core, Target, Group, Lun} !! t.nodes
    ensures !ok ==> t.nodes <= r.nodes <= t.nodes + {Core, Enabled, Target, Group, Lun, Nexus}
    ensures !ok && clean ==> r == t
  {
    var made;
    made, ok, r := Build(t);
    clean := true;
    if !ok { clean, r := Undo(t, made, r); }
  }

  /** `mapper_create`. */
  method MapperCreate(t: Tree, table: Linear) returns (ok: bool, clean: bool, r: Tree)
    requires TreeOk(t) && !Has(t, Link)
    ensures TreeOk(r) && !Has(r, Link)
    ensures ok ==> !Has(t, Mapper) && !Has(t, Dev) && r == Tree(t.nodes + {Mapper, Dev}, [table], true)
    ensures !ok ==> t.nodes <= r.nodes <= t.nodes + {Mapper} && (Has(t, Mapper) ==> r == t)
    ensures !ok && clean ==> r == t
  {
    clean := true;
    ok, r := Make(t, Mapper);
    if !ok { return; }
    ok := *; // load the table
    if ok {
      r := r.(table := [table]);
      ok := *; // resume
      if ok {
        r := r.(active := true);
        ok, r := Make(r, Dev);
        if ok { return; }
      }
    }
    clean := *; // remove the device
    if clean { r := Without(r, Mapper).(table := [], active := false); }
  }

  lemma {:induction false} AllNodes(nodes: set<Node>)
    ensures nodes <= {Mapper, Dev, Core, Enabled, Target, Group, Lun, Nexus, Link}
  {
    forall n: Node | n in nodes ensures n in {Mapper, Dev, Core, Enabled, Target, Group, Lun, Nexus, Link} {
      assert n.Mapper? || n.Dev? || n.Core? || n.Enabled? || n.Target? || n.Group? || n.Lun? || n.Nexus? || n.Link?;
    }
  }

  /** `block_target_publish`. */
  method Publish(t: Tree, table: Linear) returns (ok: bool, clean: bool, r: Tree)
    requires TreeOk(t) && !Has(t, Link)
    ensures TreeOk(r) && (ok <==> Has(r, Link))
    ensures ok ==> t == NOTHING && Published(r, table)
    ensures !ok ==> t.nodes <= r.nodes && (Has(t, Mapper) ==> r.table == t.table && r.active == t.active)
    ensures !ok && clean ==> r == t
  {
    clean, r := true, t;
    ok := *; // the parent directories and the control device
    if !ok { return; }
    ok, clean, r := MapperCreate(t, table);
    if !ok { return; }
    ok, clean, r := TargetCreate(r);
    if ok {
      AllNodes(t.nodes);
      return;
    }
    var removed: bool := *;
    if Has(r, Enabled) { removed := false; } // the block object still uses the device
    if removed {
      r := Without(r, Mapper).(table := [], active := false);
      removed := *; // unlink the node
      if removed { r := Without(r, Dev); }
    }
    clean := clean && removed;
  }
}
