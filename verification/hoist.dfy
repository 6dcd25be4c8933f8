/**
 * The declaration hoister. Every feature and action config becomes one
 * top-level declaration, keyed by an identifier derived from its name; each
 * declaration is a partial-presence merge over only the toolchains that define
 * it, and the toolchains' `features` / `action_configs` lists become ordered
 * lists of references to these identifiers.
 */
module Hoist {
  import opened Base
  import opened Records
  import opened Starlark
  import opened Partitioner
  import opened Synthesis
  import Render

  // ---- identifiers ----

  function Lower(c: char): char {
    if 'A' <= c <= 'Z' then (c as int + 32) as char else c
  }

  /** Lower-cases ASCII letters and turns `-` and `.` into `_`; every other character is kept. */
  function Sanitize(name: string): (r: string)
    ensures |r| == |name|
    ensures forall i :: 0 <= i < |r| ==> r[i] != '-' && r[i] != '.' && !('A' <= r[i] <= 'Z')
    ensures forall i :: 0 <= i < |r| ==> (name[i] == '-' || name[i] == '.') ==> r[i] == '_'
    ensures forall i :: 0 <= i < |r| ==> 'A' <= name[i] <= 'Z' ==> r[i] as int == name[i] as int + 32
    ensures forall i :: 0 <= i < |r| ==> (name[i] != '-' && name[i] != '.' && !('A' <= name[i] <= 'Z')) ==> r[i] == name[i]
  {
    seq(|name|, i requires 0 <= i < |name| => if name[i] == '-' || name[i] == '.' then '_' else Lower(name[i]))
  }

  /** Sanitizing an identifier that is already sanitized changes nothing. */
  lemma {:induction false} SanitizeIdempotent(name: string)
    ensures Sanitize(Sanitize(name)) == Sanitize(name)
  {
  }

  /** The identifier of a hoisted feature: `<sanitized name>_feature`. */
  function FeatureIdent(name: string): string {
    Sanitize(name) + "_feature"
  }

  /**
   * Two features share a hoisted declaration exactly when their names agree
   * after sanitizing, that is, up to ASCII case and up to `-`, `.` and `_`.
   */
  lemma {:induction false} FeatureIdentsEqualIff(a: string, b: string)
    ensures FeatureIdent(a) == FeatureIdent(b) <==> Sanitize(a) == Sanitize(b)
  {
    SuffixCancels(Sanitize(a), Sanitize(b), "_feature");
  }

  lemma {:induction false} SuffixCancels(a: string, b: string, suffix: string)
    ensures a + suffix == b + suffix <==> a == b
  {
    if a + suffix == b + suffix {
      assert a == (a + suffix)[..|a|];
      assert b == (b + suffix)[..|b|];
    }
  }

  /**
   * The identifier of a hoisted action config: `<stem>_action`, where the stem
   * comes from the table of known action names when the name is in it and is
   * the sanitized name otherwise.
   */
  function ActionIdent(name: string, known: map<string, string>): string {
    (if name in known then known[name] else Sanitize(name)) + "_action"
  }

  /**
   * Two action configs whose names are not in the table share a hoisted
   * declaration exactly when their names agree after sanitizing; a known name
   * shares one with another name exactly when their stems agree.
   */
  lemma {:induction false} ActionIdentsEqualIff(a: string, b: string, known: map<string, string>)
    ensures a !in known && b !in known ==> (ActionIdent(a, known) == ActionIdent(b, known) <==> Sanitize(a) == Sanitize(b))
    ensures a in known && b !in known ==> (ActionIdent(a, known) == ActionIdent(b, known) <==> known[a] == Sanitize(b))
    ensures a in known && b in known ==> (ActionIdent(a, known) == ActionIdent(b, known) <==> known[a] == known[b])
  {
    var sa := if a in known then known[a] else Sanitize(a);
    var sb := if b in known then known[b] else Sanitize(b);
    SuffixCancels(sa, sb, "_action");
  }

  // ---- named items per toolchain ----

  /** A hoistable item of one toolchain: its identifier and its rendered value. */
  datatype Named = Named(ident: string, value: Expr)

  /** The hoistable items of one toolchain, in its own order. */
  datatype Holder = Holder(key: Key, items: seq<Named>)

  function FeatureItems(t: Toolchain): seq<Named> {
    seq(|t.features|, i requires 0 <= i < |t.features| =>
      Named(FeatureIdent(t.features[i].name), Render.FeatureExpr(t.features[i])))
  }

  function ActionItems(t: Toolchain, known: map<string, string>): seq<Named> {
    seq(|t.actionConfigs|, i requires 0 <= i < |t.actionConfigs| =>
      Named(ActionIdent(t.actionConfigs[i].actionName, known), Render.ActionConfigExpr(t.actionConfigs[i])))
  }

  function Idents(items: seq<Named>): seq<string> {
    seq(|items|, i requires 0 <= i < |items| => items[i].ident)
  }

  predicate Defines(items: seq<Named>, id: string) {
    id in Idents(items)
  }

  /** The value a toolchain gives identifier `id`: its first item with that identifier. */
  function Definition(items: seq<Named>, id: string): Expr
    requires Defines(items, id)
  {
    items[IndexOf(Idents(items), id)].value
  }

  function HolderKeys(hs: seq<Holder>): seq<Key> {
    seq(|hs|, i requires 0 <= i < |hs| => hs[i].key)
  }

  predicate DistinctHolderKeys(hs: seq<Holder>) {
    forall i, j :: 0 <= i < j < |hs| ==> hs[i].key != hs[j].key
  }

  /** Every identifier any toolchain defines, toolchain by toolchain. */
  function AllIdents(hs: seq<Holder>): (r: seq<string>)
    ensures forall j, id :: 0 <= j < |hs| && Defines(hs[j].items, id) ==> id in r
    ensures forall id :: id in r ==> exists j :: 0 <= j < |hs| && Defines(hs[j].items, id)
  {
    if |hs| == 0 then []
    else
      var rest := AllIdents(hs[1..]);
      assert forall j :: 1 <= j < |hs| ==> hs[j] == hs[1..][j - 1];
      Idents(hs[0].items) + rest
  }

  /** The hoisted identifiers, each once, in first-seen order over all toolchains. */
  function HoistedIdents(hs: seq<Holder>): (r: seq<string>)
    ensures NoDup(r)
    ensures forall j, id :: 0 <= j < |hs| && Defines(hs[j].items, id) ==> id in r
    ensures forall id :: id in r ==> exists j :: 0 <= j < |hs| && Defines(hs[j].items, id)
  {
    var all := AllIdents(hs);
    var r := Dedup(all);
    assert forall id :: id in r <==> id in all by {
      forall id
        ensures id in r <==> id in all
      {
        if id in all {
          var i :| 0 <= i < |all| && all[i] == id;
        }
        if id in r {
          var i :| 0 <= i < |r| && r[i] == id;
        }
      }
    }
    r
  }

  /** Declarations come out in the order in which their identifiers first appear. */
  lemma {:induction false} DeclarationOrderIsFirstSeen(hs: seq<Holder>, x: string, y: string)
    requires x in AllIdents(hs) && y in AllIdents(hs)
    ensures x in HoistedIdents(hs) && y in HoistedIdents(hs)
    ensures IndexOf(HoistedIdents(hs), x) <= IndexOf(HoistedIdents(hs), y) <==>
      IndexOf(AllIdents(hs), x) <= IndexOf(AllIdents(hs), y)
  {
    DedupKeepsFirstSeenOrder(AllIdents(hs), x, y);
  }

  /** The positions of the toolchains that define `id`, from position `j` on, in increasing order. */
  function DefinersFrom(hs: seq<Holder>, id: string, j: nat): (d: seq<nat>)
    requires j <= |hs|
    ensures forall m :: 0 <= m < |d| ==> j <= d[m] < |hs| && Defines(hs[d[m]].items, id)
    ensures forall m, n :: 0 <= m < n < |d| ==> d[m] < d[n]
    ensures forall q :: j <= q < |hs| && Defines(hs[q].items, id) ==> q in d
    decreases |hs| - j
  {
    if j == |hs| then []
    else if Defines(hs[j].items, id) then [j] + DefinersFrom(hs, id, j + 1)
    else DefinersFrom(hs, id, j + 1)
  }

  function Definers(hs: seq<Holder>, id: string): seq<nat> {
    DefinersFrom(hs, id, 0)
  }

  /** The entries of the partial-presence merge for `id`: only the toolchains that define it, in toolchain order. */
  function DefiningEntries(hs: seq<Holder>, id: string): seq<Entry<Expr>> {
    var d := Definers(hs, id);
    seq(|d|, m requires 0 <= m < |d| => Entry(hs[d[m]].key, Definition(hs[d[m]].items, id)))
  }

  lemma {:induction false} DefiningEntriesDistinct(hs: seq<Holder>, id: string)
    requires DistinctHolderKeys(hs)
    ensures DistinctKeys(DefiningEntries(hs, id))
  {
    var d := Definers(hs, id);
    var es := DefiningEntries(hs, id);
    forall m, n | 0 <= m < n < |es|
      ensures es[m].key != es[n].key
    {
      assert d[m] < d[n];
    }
  }

  /** Every hoisted identifier has at least one defining toolchain. */
  lemma {:induction false} HoistedIsDefined(hs: seq<Holder>, id: string)
    requires id in HoistedIdents(hs)
    ensures |DefiningEntries(hs, id)| > 0
  {
    var j :| 0 <= j < |hs| && Defines(hs[j].items, id);
    assert j in Definers(hs, id);
  }

  /**
   * The statement of the hoisted declaration of `id`: merged over only the
   * toolchains that define it, and never closed by a failing `else`.
   */
  function Declare(hs: seq<Holder>, rank: Expr -> string, id: string): (c: Chain<Expr>)
    ensures c.IfChain? ==> !c.failElse
    ensures c.Omitted? <==> forall j :: 0 <= j < |hs| ==> !Defines(hs[j].items, id)
  {
    var es := DefiningEntries(hs, id);
    assert |es| == 0 <==> forall j :: 0 <= j < |hs| ==> !Defines(hs[j].items, id) by {
      if |es| > 0 {
        assert Defines(hs[Definers(hs, id)[0]].items, id);
      }
      forall j | 0 <= j < |hs| && Defines(hs[j].items, id)
        ensures |es| > 0
      {
        assert j in Definers(hs, id);
      }
    }
    Synthesize(es, rank, false)
  }

  /** One hoisted declaration: `<ident> = ...`, possibly under if/elif. */
  datatype Decl = Decl(ident: string, chain: Chain<Expr>)

  /** The hoisted declarations, one per identifier in first-seen order, none of them empty. */
  function Declarations(hs: seq<Holder>, rank: Expr -> string): (ds: seq<Decl>)
    ensures |ds| == |HoistedIdents(hs)|
    ensures forall i :: 0 <= i < |ds| ==> ds[i] == Decl(HoistedIdents(hs)[i], Declare(hs, rank, HoistedIdents(hs)[i]))
    ensures forall i :: 0 <= i < |ds| ==> !ds[i].chain.Omitted?
  {
    var ids := HoistedIdents(hs);
    HoistedAreDeclared(hs, rank);
    seq(|ids|, i requires 0 <= i < |ids| => Decl(ids[i], Declare(hs, rank, ids[i])))
  }

  /** No hoisted identifier has an empty declaration: something defines each of them. */
  lemma {:induction false} HoistedAreDeclared(hs: seq<Holder>, rank: Expr -> string)
    ensures forall i :: 0 <= i < |HoistedIdents(hs)| ==> !Declare(hs, rank, HoistedIdents(hs)[i]).Omitted?
  {
    var ids := HoistedIdents(hs);
    forall i | 0 <= i < |ids|
      ensures !Declare(hs, rank, ids[i]).Omitted?
    {
      assert ids[i] in ids;
    }
  }

  /**
   * The declaration of `id` evaluated at the key of any toolchain that defines
   * `id` yields that toolchain's definition.
   */
  function DeclIdents(ds: seq<Decl>): seq<string> {
    seq(|ds|, i requires 0 <= i < |ds| => ds[i].ident)
  }

  /**
   * What the hoisted declarations promise: one per identifier any holder
   * defines, in first-seen order; none empty, none closed by a failing
   * `else`; and each, evaluated at a holder's key, yields that holder's own
   * definition of it.
   */
  predicate DeclsResolve(ds: seq<Decl>, hs: seq<Holder>) {
    DeclIdents(ds) == HoistedIdents(hs) &&
    (forall i :: 0 <= i < |ds| ==> !ds[i].chain.Omitted? && (ds[i].chain.IfChain? ==> !ds[i].chain.failElse)) &&
    (forall i, j :: 0 <= i < |ds| && 0 <= j < |hs| && Defines(hs[j].items, ds[i].ident) ==>
      Eval(ds[i].chain, hs[j].key) == Assigned(Definition(hs[j].items, ds[i].ident)))
  }

  lemma {:induction false} DeclarationsCorrect(hs: seq<Holder>, rank: Expr -> string)
    requires DistinctHolderKeys(hs)
    ensures DeclsResolve(Declarations(hs, rank), hs)
  {
    var ds := Declarations(hs, rank);
    assert DeclIdents(ds) == HoistedIdents(hs);
    forall i, j | 0 <= i < |ds| && 0 <= j < |hs| && Defines(hs[j].items, ds[i].ident)
      ensures Eval(ds[i].chain, hs[j].key) == Assigned(Definition(hs[j].items, ds[i].ident))
    {
      DeclarationCorrect(hs, rank, ds[i].ident, j);
    }
  }

  lemma {:induction false} DeclarationCorrect(hs: seq<Holder>, rank: Expr -> string, id: string, j: nat)
    requires DistinctHolderKeys(hs)
    requires j < |hs| && Defines(hs[j].items, id)
    ensures Eval(Declare(hs, rank, id), hs[j].key) == Assigned(Definition(hs[j].items, id))
  {
    var d := Definers(hs, id);
    var es := DefiningEntries(hs, id);
    assert j in d;
    var m :| 0 <= m < |d| && d[m] == j;
    assert es[m] == Entry(hs[j].key, Definition(hs[j].items, id));
    DefiningEntriesDistinct(hs, id);
    ChainCorrect(es, rank, false, m);
  }

  /** An identifier defined by only one toolchain is declared unconditionally. */
  lemma {:induction false} SingleDefinerUnconditional(hs: seq<Holder>, rank: Expr -> string, id: string, j: nat)
    requires j < |hs| && Defines(hs[j].items, id)
    requires forall q :: 0 <= q < |hs| && Defines(hs[q].items, id) ==> q == j
    ensures Declare(hs, rank, id) == Assign(Definition(hs[j].items, id))
  {
    var d := Definers(hs, id);
    var es := DefiningEntries(hs, id);
    assert j in d;
    forall m | 0 <= m < |es|
      ensures es[m] == Entry(hs[j].key, Definition(hs[j].items, id))
    {
      assert d[m] == j;
    }
    assert forall m :: 0 <= m < |es| ==> es[m].value == es[0].value;
  }

  /** Within a toolchain whose identifiers are distinct, each item is the definition of its identifier. */
  lemma {:induction false} DefinitionAt(items: seq<Named>, p: nat)
    requires p < |items| && NoDup(Idents(items))
    ensures Defines(items, items[p].ident)
    ensures Definition(items, items[p].ident) == items[p].value
  {
    assert Idents(items)[p] == items[p].ident;
  }

  lemma {:induction false} ItemDefined(items: seq<Named>, p: nat)
    requires p < |items|
    ensures Defines(items, items[p].ident)
  {
    assert Idents(items)[p] == items[p].ident;
  }

  /** The rewritten list field of one toolchain: references to its items' identifiers, in its own order. */
  function References(items: seq<Named>): Expr {
    ListOf(seq(|items|, i requires 0 <= i < |items| => Ident(items[i].ident)))
  }

  function DecodeIdent(e: Expr): Option<string> {
    if e.Ident? then Some(e.name) else None
  }

  /** A reference list reads back as the identifiers of the items, in order. */
  lemma {:induction false} ReferencesDecode(items: seq<Named>)
    ensures DecodeList(References(items), DecodeIdent) == Some(Idents(items))
  {
    DecodeAllOf(References(items).items, DecodeIdent, Idents(items));
  }

  /** Two reference lists are equal exactly when they name the same identifiers in the same order. */
  lemma {:induction false} ReferencesEqualIff(a: seq<Named>, b: seq<Named>)
    ensures References(a) == References(b) <==> Idents(a) == Idents(b)
  {
    if References(a) == References(b) {
      forall i | 0 <= i < |a|
        ensures Idents(a)[i] == Idents(b)[i]
      {
        assert References(a).items[i] == References(b).items[i];
      }
    }
    if Idents(a) == Idents(b) {
      forall i | 0 <= i < |a|
        ensures References(a).items[i] == References(b).items[i]
      {
        assert Idents(a)[i] == a[i].ident && Idents(b)[i] == b[i].ident;
      }
      assert References(a).items == References(b).items;
    }
  }

  /**
   * Every reference in any toolchain's rewritten list names a hoisted
   * declaration, and that declaration evaluated at the toolchain's key gives
   * the toolchain's own definition.
   */
  lemma {:induction false} ReferencesResolve(hs: seq<Holder>, rank: Expr -> string, j: nat, p: nat, id: string)
    requires DistinctHolderKeys(hs)
    requires j < |hs| && p < |References(hs[j].items).items|
    requires References(hs[j].items).items[p] == Ident(id)
    ensures Defines(hs[j].items, id) && id in HoistedIdents(hs)
    ensures Eval(Declare(hs, rank, id), hs[j].key) == Assigned(Definition(hs[j].items, id))
  {
    ItemDefined(hs[j].items, p);
    DeclarationCorrect(hs, rank, id, j);
  }
}
