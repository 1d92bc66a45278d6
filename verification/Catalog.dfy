/** The model catalog: which bundles are accepted, and the lookup of a model by SKU or verified alias. */
module Catalog {
  import opened Text
  import opened Sequences

  datatype Kind = ApiModel | Sysid | SshModel

  datatype Alias = Alias(kind: Kind, value: string, verified: bool)

  /**
   * A model document: its aliases in the order written, and whether it passes the checks that look at
   * nothing but its own fields.
   */
  datatype Model = Model(sku: string, aliases: seq<Alias>, wellFormed: bool)

  /** A dictionary by SKU, with its insertion order. */
  datatype Catalog = Catalog(order: seq<string>, entries: map<string, Model>)

  predicate Claims(a: Alias, kind: Kind, value: string) { a.verified && a.kind == kind && a.value == value }

  ghost predicate Claimed(aliases: seq<Alias>, kind: Kind, value: string) { exists a :: a in aliases && Claims(a, kind, value) }

  ghost predicate Owns(m: Model, kind: Kind, value: string) { Claimed(m.aliases, kind, value) }

  // ---- One model

  ghost predicate NoRepeatedAlias(aliases: seq<Alias>)
  {
    forall i, j :: 0 <= i < j < |aliases| && aliases[i].verified && aliases[j].verified ==>
      (aliases[i].kind, aliases[i].value) != (aliases[j].kind, aliases[j].value)
  }

  /** The source walks the kinds in a fixed order; which alias repeats first does not matter here. */
  method RuntimeIdentifiers(m: Model) returns (r: Option<set<(Kind, string)>>)
    ensures r.Some? <==> NoRepeatedAlias(m.aliases)
    ensures r.Some? ==> forall kind, value :: (kind, value) in r.value <==> Owns(m, kind, value)
  {
    var verified: set<(Kind, string)> := {};
    for i := 0 to |m.aliases|
      invariant NoRepeatedAlias(m.aliases[..i])
      invariant forall kind, value :: (kind, value) in verified <==> exists j :: 0 <= j < i && Claims(m.aliases[j], kind, value)
    {
      var alias := m.aliases[i];
      assert forall j :: 0 <= j < i ==> m.aliases[..i + 1][j] == m.aliases[j];
      if !alias.verified { continue; }
      if (alias.kind, alias.value) in verified {
        ghost var j :| 0 <= j < i && Claims(m.aliases[j], alias.kind, alias.value);
        return None;
      }
      assert Claims(m.aliases[i], alias.kind, alias.value);
      verified := verified + {(alias.kind, alias.value)};
    }
    assert m.aliases[..|m.aliases|] == m.aliases;
    forall kind, value ensures (kind, value) in verified <==> Owns(m, kind, value) {
      if Owns(m, kind, value) {
        var a :| a in m.aliases && Claims(a, kind, value);
        var j :| 0 <= j < |m.aliases| && m.aliases[j] == a;
        assert Claims(m.aliases[j], kind, value);
      }
    }
    return Some(verified);
  }

  ghost predicate ModelOk(m: Model) { m.wellFormed && NoRepeatedAlias(m.aliases) }

  // ---- The bundle

  function SkuOf(m: Model): string { m.sku }

  ghost predicate OneOwner(models: seq<Model>)
  {
    forall m, n, kind, value :: m in models && n in models && Owns(m, kind, value) && Owns(n, kind, value) ==> m.sku == n.sku
  }

  /** No verified alias is spelled like the SKU of another model. */
  ghost predicate NoCollision(models: seq<Model>)
  {
    forall m, n, kind :: m in models && n in models && Owns(m, kind, n.sku) ==> m.sku == n.sku
  }

  ghost predicate Acceptable(models: seq<Model>)
  {
    && models != []
    && (forall m :: m in models ==> ModelOk(m))
    && DistinctBy(models, SkuOf) && OneOwner(models) && NoCollision(models)
  }

  ghost predicate CatalogOf(c: Catalog, models: seq<Model>)
  {
    && c.order == seq(|models|, i requires 0 <= i < |models| => models[i].sku)
    && c.entries.Keys == (set m | m in models :: m.sku)
    && forall m :: m in models ==> m.sku in c.entries && c.entries[m.sku] == m
  }

  /** The first pass: every model is well formed and no SKU repeats. */
  method CollectSkus(models: seq<Model>) returns (skus: Option<set<string>>)
    ensures skus.Some? <==> (forall m :: m in models ==> ModelOk(m)) && DistinctBy(models, SkuOf)
    ensures skus.Some? ==> skus.value == set m | m in models :: m.sku
  {
    var seen: set<string> := {};
    for i := 0 to |models|
      invariant forall m :: m in models[..i] ==> ModelOk(m)
      invariant DistinctBy(models[..i], SkuOf)
      invariant seen == set m | m in models[..i] :: m.sku
    {
      var item := models[i];
      assert models[..i + 1] == models[..i] + [item] && item in models;
      if !item.wellFormed { return None; }
      var identifiers := RuntimeIdentifiers(item);
      if identifiers.None? { return None; }
      if item.sku in seen {
        ghost var m :| m in models[..i] && m.sku == item.sku;
        ghost var j :| 0 <= j < i && models[..i][j] == m;
        assert SkuOf(models[j]) == SkuOf(models[i]);
        return None;
      }
      seen := seen + {item.sku};
    }
    assert models[..|models|] == models;
    return Some(seen);
  }

  /** The owner recorded for each verified alias of the models read so far. */
  ghost predicate Owners(owners: map<(Kind, string), string>, models: seq<Model>)
  {
    && (forall m, kind, value :: m in models && Owns(m, kind, value) ==>
          (kind, value) in owners && owners[(kind, value)] == m.sku)
    && (forall kind, value :: (kind, value) in owners ==> exists m :: m in models && Owns(m, kind, value))
  }

  /** The same within one model, after its first aliases. */
  ghost predicate OwnersUpTo(owners: map<(Kind, string), string>, before: map<(Kind, string), string>, aliases: seq<Alias>, sku: string)
  {
    forall kind, value :: OwnerAt(owners, before, aliases, sku, kind, value)
  }

  ghost predicate OwnerAt(owners: map<(Kind, string), string>, before: map<(Kind, string), string>, aliases: seq<Alias>, sku: string,
                          kind: Kind, value: string)
  {
    if Claimed(aliases, kind, value) then (kind, value) in owners && owners[(kind, value)] == sku
    else ((kind, value) in owners <==> (kind, value) in before) &&
         ((kind, value) in before ==> owners[(kind, value)] == before[(kind, value)])
  }

  predicate Conflicts(a: Alias, owners: map<(Kind, string), string>, sku: string, skus: set<string>)
  {
    a.verified && (((a.kind, a.value) in owners && owners[(a.kind, a.value)] != sku) || (a.value in skus && a.value != sku))
  }

  lemma OwnersStep(owners: map<(Kind, string), string>, before: map<(Kind, string), string>, aliases: seq<Alias>, a: Alias, sku: string)
    requires OwnersUpTo(owners, before, aliases, sku)
    ensures OwnersUpTo(if a.verified then owners[(a.kind, a.value) := sku] else owners, before, aliases + [a], sku)
  {
    var after := if a.verified then owners[(a.kind, a.value) := sku] else owners;
    forall kind, value ensures OwnerAt(after, before, aliases + [a], sku, kind, value) {
      assert OwnerAt(owners, before, aliases, sku, kind, value);
      ClaimedSnoc(aliases, a, kind, value);
    }
  }

  lemma ClaimedSnoc(aliases: seq<Alias>, a: Alias, kind: Kind, value: string)
    ensures Claimed(aliases + [a], kind, value) <==> Claimed(aliases, kind, value) || Claims(a, kind, value)
  {
    if b :| b in aliases && Claims(b, kind, value) { assert b in aliases + [a]; }
    if Claims(a, kind, value) { assert a in aliases + [a]; }
  }

  method RecordAliases(owners: map<(Kind, string), string>, item: Model, skus: set<string>) returns (r: Option<map<(Kind, string), string>>)
    ensures r.None? <==> exists a :: a in item.aliases && Conflicts(a, owners, item.sku, skus)
    ensures r.Some? ==> OwnersUpTo(r.value, owners, item.aliases, item.sku)
  {
    var aliases := owners;
    for i := 0 to |item.aliases|
      invariant OwnersUpTo(aliases, owners, item.aliases[..i], item.sku)
      invariant forall a :: a in item.aliases[..i] ==> !Conflicts(a, owners, item.sku, skus)
    {
      var alias := item.aliases[i];
      assert item.aliases[..i + 1] == item.aliases[..i] + [alias] && alias in item.aliases;
      OwnersStep(aliases, owners, item.aliases[..i], alias, item.sku);
      if !alias.verified { continue; }
      var key := (alias.kind, alias.value);
      assert OwnerAt(aliases, owners, item.aliases[..i], item.sku, alias.kind, alias.value);
      if key in aliases && aliases[key] != item.sku {
        assert Conflicts(alias, owners, item.sku, skus);
        return None;
      }
      if alias.value in skus && alias.value != item.sku {
        assert Conflicts(alias, owners, item.sku, skus);
        return None;
      }
      aliases := aliases[key := item.sku];
    }
    assert item.aliases[..|item.aliases|] == item.aliases;
    return Some(aliases);
  }

  lemma OwnersExtend(owners: map<(Kind, string), string>, after: map<(Kind, string), string>, models: seq<Model>, item: Model, skus: set<string>)
    requires Owners(owners, models) && OwnersUpTo(after, owners, item.aliases, item.sku)
    requires forall a :: a in item.aliases ==> !Conflicts(a, owners, item.sku, skus)
    ensures Owners(after, models + [item])
  {
    var all := models + [item];
    forall m, kind, value | m in all && Owns(m, kind, value)
      ensures (kind, value) in after && after[(kind, value)] == m.sku
    {
      assert OwnerAt(after, owners, item.aliases, item.sku, kind, value);
      if a :| a in item.aliases && Claims(a, kind, value) {
        assert !Conflicts(a, owners, item.sku, skus);
        assert m in models ==> owners[(kind, value)] == m.sku == item.sku;
      } else {
        assert m in models;
      }
    }
    forall kind, value | (kind, value) in after ensures exists m :: m in all && Owns(m, kind, value) {
      assert OwnerAt(after, owners, item.aliases, item.sku, kind, value);
      if a :| a in item.aliases && Claims(a, kind, value) {
        assert item in all && Owns(item, kind, value);
      } else {
        var m :| m in models && Owns(m, kind, value);
        assert m in all;
      }
    }
  }

  /** A conflict of a later model, and only a conflict, spoils the bundle. */
  lemma ConflictSpoils(owners: map<(Kind, string), string>, models: seq<Model>, i: nat, skus: set<string>)
    requires i < |models| && Owners(owners, models[..i]) && skus == set m | m in models :: m.sku
    requires exists a :: a in models[i].aliases && Conflicts(a, owners, models[i].sku, skus)
    ensures !(OneOwner(models) && NoCollision(models))
  {
    var item := models[i];
    var a :| a in item.aliases && Conflicts(a, owners, item.sku, skus);
    assert item in models && Owns(item, a.kind, a.value);
    if (a.kind, a.value) in owners && owners[(a.kind, a.value)] != item.sku {
      var m :| m in models[..i] && Owns(m, a.kind, a.value);
      assert m in models && m.sku != item.sku;
    } else {
      var n :| n in models && n.sku == a.value;
      assert Owns(item, a.kind, n.sku);
    }
  }

  /** Every alias recorded, and none of the recorded models in conflict with a SKU. */
  ghost predicate NoCollisionWith(models: seq<Model>, skus: set<string>)
  {
    forall m, kind, value :: m in models && Owns(m, kind, value) && value in skus ==> m.sku == value
  }

  lemma AllRecorded(owners: map<(Kind, string), string>, models: seq<Model>, skus: set<string>)
    requires Owners(owners, models) && NoCollisionWith(models, skus) && skus == set m | m in models :: m.sku
    ensures OneOwner(models) && NoCollision(models)
  {
  }

  lemma NoCollisionExtend(models: seq<Model>, item: Model, owners: map<(Kind, string), string>, skus: set<string>)
    requires NoCollisionWith(models, skus) && forall a :: a in item.aliases ==> !Conflicts(a, owners, item.sku, skus)
    ensures NoCollisionWith(models + [item], skus)
  {
    forall m, kind, value | m in models + [item] && Owns(m, kind, value) && value in skus ensures m.sku == value {
      if m !in models {
        var a :| a in item.aliases && Claims(a, kind, value);
        assert !Conflicts(a, owners, item.sku, skus);
      }
    }
  }

  method Bundle(models: seq<Model>) returns (r: Option<Catalog>)
    ensures r.Some? <==> Acceptable(models)
    ensures r.Some? ==> CatalogOf(r.value, models)
  {
    if models == [] { return None; }
    var skus := CollectSkus(models);
    if skus.None? { return None; }
    var owners: map<(Kind, string), string> := map[];
    var order: seq<string>, entries: map<string, Model> := [], map[];
    for i := 0 to |models|
      invariant Owners(owners, models[..i]) && NoCollisionWith(models[..i], skus.value)
      invariant CatalogOf(Catalog(order, entries), models[..i])
    {
      var item := models[i];
      assert models[..i + 1] == models[..i] + [item];
      var recorded := RecordAliases(owners, item, skus.value);
      if recorded.None? {
        ConflictSpoils(owners, models, i, skus.value);
        return None;
      }
      OwnersExtend(owners, recorded.value, models[..i], item, skus.value);
      NoCollisionExtend(models[..i], item, owners, skus.value);
      CatalogExtend(Catalog(order, entries), models, i);
      owners := recorded.value;
      order, entries := order + [item.sku], entries[item.sku := item];
    }
    assert models[..|models|] == models;
    AllRecorded(owners, models, skus.value);
    return Some(Catalog(order, entries));
  }

  lemma CatalogExtend(c: Catalog, models: seq<Model>, i: nat)
    requires i < |models| && CatalogOf(c, models[..i]) && DistinctBy(models, SkuOf)
    ensures CatalogOf(Catalog(c.order + [models[i].sku], c.entries[models[i].sku := models[i]]), models[..i + 1])
  {
    var item := models[i];
    assert models[..i + 1] == models[..i] + [item];
    forall m | m in models[..i] ensures m.sku != item.sku {
      var j :| 0 <= j < i && models[..i][j] == m;
      assert SkuOf(models[j]) != SkuOf(models[i]);
    }
  }

  // ---- Lookup

  /** The first model in order that owns the alias. */
  ghost function FirstOwner(models: seq<Model>, kind: Kind, value: string): Option<Model>
  {
    if models == [] then None
    else if Owns(models[0], kind, value) then Some(models[0])
    else FirstOwner(models[1..], kind, value)
  }

  method OwnsAlias(m: Model, kind: Kind, value: string) returns (r: bool)
    ensures r <==> Owns(m, kind, value)
  {
    for i := 0 to |m.aliases|
      invariant forall j :: 0 <= j < i ==> !Claims(m.aliases[j], kind, value)
    {
      if Claims(m.aliases[i], kind, value) {
        assert m.aliases[i] in m.aliases;
        return true;
      }
    }
    return false;
  }

  ghost function Resolved(models: seq<Model>, value: string, kind: Option<Kind>, explicitSku: bool): Option<Model>
  {
    var v := Strip(value);
    if v == "" then None
    else if explicitSku && exists m :: m in models && m.sku == v then
      var m :| m in models && m.sku == v;
      Some(m)
    else if kind.None? then None
    else FirstOwner(models, kind.value, v)
  }

  /** A kind the source does not know is None. */
  method ResolveModel(c: Catalog, value: string, kind: Option<Kind>, explicitSku: bool, ghost models: seq<Model>) returns (r: Option<Model>)
    requires CatalogOf(c, models) && DistinctBy(models, SkuOf)
    ensures r == Resolved(models, value, kind, explicitSku)
  {
    var v := Strip(value);
    if v == "" { return None; }
    if explicitSku && v in c.entries {
      ghost var m :| m in models && m.sku == v;
      SkuIsUnique(models, m, c.entries[v]);
      return Some(c.entries[v]);
    }
    if kind.None? { return None; }
    for i := 0 to |c.order|
      invariant FirstOwner(models, kind.value, v) == FirstOwner(models[i..], kind.value, v)
    {
      assert models[i] in models && c.order[i] == models[i].sku;
      var model := c.entries[c.order[i]];
      var owns := OwnsAlias(model, kind.value, v);
      if owns { return Some(model); }
      assert models[i..][1..] == models[i + 1..];
    }
    return None;
  }

  lemma SkuIsUnique(models: seq<Model>, m: Model, n: Model)
    requires DistinctBy(models, SkuOf) && m in models && n in models && m.sku == n.sku
    ensures m == n
  {
    var i :| 0 <= i < |models| && models[i] == m;
    var j :| 0 <= j < |models| && models[j] == n;
    assert i < j ==> SkuOf(models[i]) != SkuOf(models[j]);
    assert j < i ==> SkuOf(models[j]) != SkuOf(models[i]);
  }

  // ---- What an accepted bundle promises

  lemma {:induction false} FirstOwnerOwns(models: seq<Model>, kind: Kind, value: string)
    ensures var r := FirstOwner(models, kind, value);
            (r.Some? ==> r.value in models && Owns(r.value, kind, value)) &&
            (r.None? <==> forall m :: m in models ==> !Owns(m, kind, value))
  {
    if models != [] {
      FirstOwnerOwns(models[1..], kind, value);
      assert forall m :: m in models <==> m == models[0] || m in models[1..];
    }
  }

  /** Every verified alias leads to the model that owns it, whatever the order and the white space around the value. */
  lemma AliasLeadsToOwner(models: seq<Model>, m: Model, kind: Kind, value: string)
    requires Acceptable(models) && m in models && Strip(value) != "" && Owns(m, kind, Strip(value))
    ensures Resolved(models, value, Some(kind), false) == Some(m)
  {
    FirstOwnerOwns(models, kind, Strip(value));
    var r := FirstOwner(models, kind, Strip(value));
    assert r.Some?;
    SkuIsUnique(models, r.value, m);
  }

  /** Nothing else is found: a resolved alias is a verified alias of the result. */
  lemma ResolvedOwns(models: seq<Model>, value: string, kind: Kind)
    requires Resolved(models, value, Some(kind), false).Some?
    ensures var r := Resolved(models, value, Some(kind), false).value;
            r in models && Owns(r, kind, Strip(value))
  {
    FirstOwnerOwns(models, kind, Strip(value));
  }

  /**
   * A lookup in an accepted bundle, exactly: by SKU when that is asked for and there is one, else by a verified
   * alias of a known kind; a value of white space alone finds nothing.
   */
  lemma ResolvedExactly(models: seq<Model>, value: string, kind: Option<Kind>, explicitSku: bool, m: Model)
    requires Acceptable(models)
    ensures Resolved(models, value, kind, explicitSku) == Some(m) <==>
            && m in models && Strip(value) != ""
            && ((explicitSku && m.sku == Strip(value))
                || (kind.Some? && Owns(m, kind.value, Strip(value)) && (explicitSku ==> forall n :: n in models ==> n.sku != Strip(value))))
  {
    var v := Strip(value);
    if v != "" && m in models && explicitSku && m.sku == v {
      forall n | n in models && n.sku == v ensures n == m { SkuIsUnique(models, n, m); }
    }
    if kind.Some? {
      FirstOwnerOwns(models, kind.value, v);
      if m in models && Owns(m, kind.value, v) {
        var r := FirstOwner(models, kind.value, v);
        assert r.Some? && Owns(r.value, kind.value, v);
        SkuIsUnique(models, r.value, m);
      }
    }
  }

  lemma SameMembers(a: seq<Model>, b: seq<Model>)
    requires multiset(a) == multiset(b)
    ensures forall m :: m in a <==> m in b
  {
    forall m ensures m in a <==> m in b {
      assert m in a <==> m in multiset(a);
      assert m in b <==> m in multiset(b);
    }
  }

  /** Reordering the models changes neither the verdict on the bundle nor any lookup. */
  lemma OrderDoesNotMatter(a: seq<Model>, b: seq<Model>)
    requires multiset(a) == multiset(b) && Acceptable(a)
    ensures Acceptable(b)
    ensures forall value, kind, explicitSku :: Resolved(a, value, kind, explicitSku) == Resolved(b, value, kind, explicitSku)
  {
    SameMembers(a, b);
    PermutationDistinct(a, b, SkuOf);
    assert a[0] in b;
    forall value, kind, explicitSku ensures Resolved(a, value, kind, explicitSku) == Resolved(b, value, kind, explicitSku) {
      SameLookup(a, b, value, kind, explicitSku);
    }
  }

  lemma SameLookup(a: seq<Model>, b: seq<Model>, value: string, kind: Option<Kind>, explicitSku: bool)
    requires Acceptable(a) && Acceptable(b) && forall m :: m in a <==> m in b
    ensures Resolved(a, value, kind, explicitSku) == Resolved(b, value, kind, explicitSku)
  {
    var v := Strip(value);
    if v != "" {
      if explicitSku && exists m :: m in a && m.sku == v {
        var m, n := Resolved(a, value, kind, true).value, Resolved(b, value, kind, true).value;
        SkuIsUnique(a, m, n);
      } else if kind.Some? {
        FirstOwnerOwns(a, kind.value, v);
        FirstOwnerOwns(b, kind.value, v);
        var r := FirstOwner(a, kind.value, v);
        if r.Some? { AliasLeadsToOwner(b, r.value, kind.value, value); }
      }
    }
  }

  /** A lookup by SKU and a lookup by alias that both find something find the same model. */
  lemma SkuAndAliasAgree(models: seq<Model>, value: string, kind: Kind)
    requires Acceptable(models)
    requires exists m :: m in models && m.sku == Strip(value)
    requires Resolved(models, value, Some(kind), false).Some?
    ensures Resolved(models, value, Some(kind), true) == Resolved(models, value, Some(kind), false)
  {
    ResolvedOwns(models, value, kind);
    var m, n := Resolved(models, value, Some(kind), true).value, Resolved(models, value, Some(kind), false).value;
    assert Owns(n, kind, m.sku);
    SkuIsUnique(models, m, n);
  }

  lemma {:induction false} StripLeftTwice(s: string)
    ensures StripLeft(StripLeft(s)) == StripLeft(s)
    ensures StripLeft(s) != "" ==> !IsSpace(StripLeft(s)[0]) && StripLeft(s)[|StripLeft(s)| - 1] == s[|s| - 1]
  {
    if s != "" && IsSpace(s[0]) { StripLeftTwice(s[1..]); }
  }

  lemma {:induction false} StripRightKeepsFirst(s: string)
    ensures StripRight(s) != "" ==> s != "" && StripRight(s)[0] == s[0] && !IsSpace(StripRight(s)[|StripRight(s)| - 1])
    decreases |s|
  {
    if s != "" && IsSpace(s[|s| - 1]) { StripRightKeepsFirst(s[..|s| - 1]); }
  }

  lemma StripTwice(s: string)
    ensures Strip(Strip(s)) == Strip(s)
  {
    StripLeftTwice(s);
    StripRightKeepsFirst(StripLeft(s));
    if Strip(s) != "" { StripNothing(Strip(s)); }
  }

  /** The catalog takes aliases with white space around them, but a lookup reaches exactly those without. */
  lemma ReachableExactlyWhenStripped(models: seq<Model>, m: Model, kind: Kind, alias: string)
    requires Acceptable(models) && m in models && Owns(m, kind, alias) && Strip(alias) != ""
    ensures (exists value :: Strip(value) == alias && Resolved(models, value, Some(kind), false) == Some(m)) <==> Strip(alias) == alias
  {
    if value :| Strip(value) == alias && Resolved(models, value, Some(kind), false) == Some(m) { StripTwice(value); }
    if Strip(alias) == alias { AliasLeadsToOwner(models, m, kind, alias); }
  }
}
