/** Grouping the configured models of one type by provider, for the
    podcast template panels. */
module TemplatesTab {

  /** The fields of a configured model that the grouping reads. */
  datatype Model = Model(name: string, provider: string, modelType: string)

  /** The models of the requested type, in input order (the `filter` step). */
  function ByType(models: seq<Model>, modelType: string): (r: seq<Model>)
    ensures |r| <= |models|
    ensures forall i :: 0 <= i < |r| ==> r[i].modelType == modelType && r[i] in models
  {
    if models == [] then []
    else
      var last := models[|models| - 1];
      ByType(models[..|models| - 1], modelType) + (if last.modelType == modelType then [last] else [])
  }

  /** Every model of the requested type is kept. */
  lemma {:induction false} ByTypeKeepsAll(models: seq<Model>, modelType: string, i: nat)
    requires i < |models| && models[i].modelType == modelType
    ensures models[i] in ByType(models, modelType)
    decreases |models|
  {
    var init := models[..|models| - 1];
    if i < |models| - 1 {
      assert init[i] == models[i];
      ByTypeKeepsAll(init, modelType, i);
    }
  }

  /** The names of the models of `modelType` from `provider`, in input order. */
  function NamesOf(models: seq<Model>, modelType: string, provider: string): seq<string>
  {
    if models == [] then []
    else
      var last := models[|models| - 1];
      NamesOf(models[..|models| - 1], modelType, provider) +
        (if last.modelType == modelType && last.provider == provider then [last.name] else [])
  }

  /** The providers that have at least one model of `modelType`. */
  function Providers(models: seq<Model>, modelType: string): set<string>
  {
    set i | 0 <= i < |models| && models[i].modelType == modelType :: models[i].provider
  }

  /** The reference grouping: provider to the names of its models of the type. */
  function Grouped(models: seq<Model>, modelType: string): map<string, seq<string>>
  {
    map p | p in Providers(models, modelType) :: NamesOf(models, modelType, p)
  }

  /** `modelsByProvider`: filter by type, then fold the models into an
      accumulator, creating a provider's list on its first model and
      appending each name to it. `keys` is the order in which the
      accumulator's keys are created. */
  method ModelsByProvider(models: seq<Model>, modelType: string)
    returns (r: map<string, seq<string>>, keys: seq<string>)
    ensures r == Grouped(models, modelType)
    ensures keys == ProviderOrder(models, modelType)
  {
    var filtered := ByType(models, modelType);
    var acc: map<string, seq<string>> := map[];
    keys := [];
    for i := 0 to |filtered|
      invariant acc == Grouped(filtered[..i], modelType)
      invariant keys == ProviderOrder(filtered[..i], modelType)
      invariant forall p :: p in keys <==> p in acc
    {
      var model := filtered[i];
      if model.provider !in acc {
        acc := acc[model.provider := []];
        keys := keys + [model.provider];
      }
      acc := acc[model.provider := acc[model.provider] + [model.name]];
      assert filtered[..i + 1] == filtered[..i] + [model];
      assert filtered[..i + 1][..i] == filtered[..i];
      GroupedSnoc(filtered[..i], model, modelType);
    }
    assert filtered[..|filtered|] == filtered;
    GroupedByType(models, modelType);
    ProviderOrderByType(models, modelType);
    r := acc;
  }

  // ---------------------------------------------------------------------------
  // Helpers about appending one model

  lemma NamesOfSnoc(models: seq<Model>, m: Model, modelType: string, provider: string)
    ensures NamesOf(models + [m], modelType, provider) ==
      NamesOf(models, modelType, provider) + (if m.modelType == modelType && m.provider == provider then [m.name] else [])
  {
  }

  lemma ProvidersSnoc(models: seq<Model>, m: Model, modelType: string)
    ensures Providers(models + [m], modelType) ==
      Providers(models, modelType) + (if m.modelType == modelType then {m.provider} else {})
  {
    var xs := models + [m];
    forall p | p in Providers(xs, modelType)
      ensures p in Providers(models, modelType) + (if m.modelType == modelType then {m.provider} else {})
    {
      var i :| 0 <= i < |xs| && xs[i].modelType == modelType && xs[i].provider == p;
      if i < |models| {
        assert models[i] == xs[i];
      }
    }
    forall p | p in Providers(models, modelType)
      ensures p in Providers(xs, modelType)
    {
      var i :| 0 <= i < |models| && models[i].modelType == modelType && models[i].provider == p;
      assert xs[i] == models[i];
    }
    if m.modelType == modelType {
      assert xs[|models|] == m;
    }
  }

  /** A provider has names exactly when it has a model of the type. */
  lemma {:induction false} NamesNonEmptyIffProvider(models: seq<Model>, modelType: string, provider: string)
    ensures NamesOf(models, modelType, provider) != [] <==> provider in Providers(models, modelType)
    decreases |models|
  {
    if models != [] {
      var init, last := models[..|models| - 1], models[|models| - 1];
      assert init + [last] == models;
      NamesNonEmptyIffProvider(init, modelType, provider);
      NamesOfSnoc(init, last, modelType, provider);
      ProvidersSnoc(init, last, modelType);
    }
  }

  /** One fold step: the model's name is appended to its provider's list,
      which is created empty first when the provider is new. */
  lemma GroupedSnoc(models: seq<Model>, m: Model, modelType: string)
    requires m.modelType == modelType
    ensures var g := Grouped(models, modelType);
      Grouped(models + [m], modelType) ==
        g[m.provider := (if m.provider in g then g[m.provider] else []) + [m.name]]
  {
    var g := Grouped(models, modelType);
    var h := Grouped(models + [m], modelType);
    ProvidersSnoc(models, m, modelType);
    forall p | p in h
      ensures h[p] == g[m.provider := (if m.provider in g then g[m.provider] else []) + [m.name]][p]
    {
      NamesOfSnoc(models, m, modelType, p);
      if p == m.provider && m.provider !in g {
        NamesNonEmptyIffProvider(models, modelType, p);
      }
    }
  }

  /** Filtering first changes nothing about the grouping. */
  lemma {:induction false} GroupedByType(models: seq<Model>, modelType: string)
    ensures Grouped(ByType(models, modelType), modelType) == Grouped(models, modelType)
    decreases |models|
  {
    if models != [] {
      var init, last := models[..|models| - 1], models[|models| - 1];
      assert init + [last] == models;
      GroupedByType(init, modelType);
      var f := ByType(init, modelType);
      if last.modelType == modelType {
        GroupedSnoc(f, last, modelType);
        GroupedSnoc(init, last, modelType);
      } else {
        assert ByType(models, modelType) == f;
        ProvidersSnoc(init, last, modelType);
        forall p | p in Providers(models, modelType)
          ensures NamesOf(models, modelType, p) == NamesOf(init, modelType, p)
        {
          NamesOfSnoc(init, last, modelType, p);
        }
      }
    }
  }

  // ---------------------------------------------------------------------------
  // Properties of the grouping

  /** A provider is a key exactly when one of its models has the type, and
      every list is non-empty. */
  lemma GroupedKeys(models: seq<Model>, modelType: string, provider: string)
    ensures provider in Grouped(models, modelType) <==>
      exists i :: 0 <= i < |models| && models[i].modelType == modelType && models[i].provider == provider
    ensures provider in Grouped(models, modelType) ==> Grouped(models, modelType)[provider] != []
  {
    NamesNonEmptyIffProvider(models, modelType, provider);
  }

  /** Names keep input order: the names from a prefix of the input come before
      those from the rest, and a matching model contributes its own name. */
  lemma {:induction false} NamesInInputOrder(xs: seq<Model>, ys: seq<Model>, modelType: string, provider: string)
    ensures NamesOf(xs + ys, modelType, provider) == NamesOf(xs, modelType, provider) + NamesOf(ys, modelType, provider)
    decreases |ys|
  {
    if ys == [] {
      assert xs + ys == xs;
    } else {
      var init, last := ys[..|ys| - 1], ys[|ys| - 1];
      assert xs + ys == (xs + init) + [last];
      assert init + [last] == ys;
      NamesInInputOrder(xs, init, modelType, provider);
      NamesOfSnoc(xs + init, last, modelType, provider);
      NamesOfSnoc(init, last, modelType, provider);
    }
  }

  /** A single model contributes its name, once, to its own provider only;
      with the lemma above, duplicate models give duplicate names. */
  lemma SingleModelNames(m: Model, modelType: string, provider: string)
    ensures NamesOf([m], modelType, provider) ==
      if m.modelType == modelType && m.provider == provider then [m.name] else []
  {
  }

  /** No model of the requested type, the empty input included, gives the empty map. */
  lemma NoModelOfTypeIsEmpty(models: seq<Model>, modelType: string)
    requires forall i :: 0 <= i < |models| ==> models[i].modelType != modelType
    ensures Grouped(models, modelType) == map[]
  {
  }

  /** The providers in the order their first model of the type appears;
      `ModelsByProvider` proves this is the order in which it creates its keys. */
  function ProviderOrder(models: seq<Model>, modelType: string): seq<string>
  {
    if models == [] then []
    else
      var init, last := models[..|models| - 1], models[|models| - 1];
      var order := ProviderOrder(init, modelType);
      if last.modelType == modelType && last.provider !in order then order + [last.provider] else order
  }

  /** Filtering first changes nothing about the provider order. */
  lemma {:induction false} ProviderOrderByType(models: seq<Model>, modelType: string)
    ensures ProviderOrder(ByType(models, modelType), modelType) == ProviderOrder(models, modelType)
    decreases |models|
  {
    if models != [] {
      var init, last := models[..|models| - 1], models[|models| - 1];
      ProviderOrderByType(init, modelType);
      if last.modelType == modelType {
        var f := ByType(init, modelType);
        assert (f + [last])[..|f|] == f;
      } else {
        assert ByType(models, modelType) == ByType(init, modelType);
      }
    }
  }

  /** The summed lengths of the lists of `keys` in `m`. */
  function SumLengths(m: map<string, seq<string>>, keys: seq<string>): nat
  {
    if keys == [] then 0
    else SumLengths(m, keys[..|keys| - 1]) + (if keys[|keys| - 1] in m then |m[keys[|keys| - 1]]| else 0)
  }

  /** The sum over distinct keys after one key's list grows by one. */
  lemma {:induction false} SumLengthsBump(m: map<string, seq<string>>, keys: seq<string>, k: string, name: string)
    requires forall i, j :: 0 <= i < j < |keys| ==> keys[i] != keys[j]
    requires k in m
    ensures SumLengths(m[k := m[k] + [name]], keys) == SumLengths(m, keys) + (if k in keys then 1 else 0)
    decreases |keys|
  {
    if keys != [] {
      var init := keys[..|keys| - 1];
      SumLengthsBump(m, init, k, name);
      assert k in keys <==> k in init || k == keys[|keys| - 1];
      assert keys[|keys| - 1] == k ==> k !in init;
    }
  }

  /** Keys that are absent from a map contribute nothing. */
  lemma {:induction false} SumLengthsAbsentKey(m: map<string, seq<string>>, keys: seq<string>, k: string, v: seq<string>)
    requires k !in keys
    ensures SumLengths(m[k := v], keys) == SumLengths(m, keys)
    decreases |keys|
  {
    if keys != [] {
      SumLengthsAbsentKey(m, keys[..|keys| - 1], k, v);
    }
  }

  /** The provider order lists each key of the grouping exactly once, and the
      lists hold as many names in all as there are models of the type. */
  lemma {:induction false} GroupedCount(models: seq<Model>, modelType: string)
    ensures var order := ProviderOrder(models, modelType);
      && (forall i, j :: 0 <= i < j < |order| ==> order[i] != order[j])
      && (forall p :: p in order <==> p in Grouped(models, modelType))
      && SumLengths(Grouped(models, modelType), order) == |ByType(models, modelType)|
    decreases |models|
  {
    if models != [] {
      var init, last := models[..|models| - 1], models[|models| - 1];
      assert init + [last] == models;
      GroupedCount(init, modelType);
      var order := ProviderOrder(init, modelType);
      var g := Grouped(init, modelType);
      ProvidersSnoc(init, last, modelType);
      if last.modelType == modelType {
        GroupedSnoc(init, last, modelType);
        var p := last.provider;
        if p in g {
          SumLengthsBump(g, order, p, last.name);
        } else {
          var g' := g[p := []];
          assert g'[p := g'[p] + [last.name]] == Grouped(models, modelType);
          SumLengthsAbsentKey(g, order, p, []);
          SumLengthsBump(g', order + [p], p, last.name);
          assert (order + [p])[..|order|] == order;
        }
      } else {
        assert Grouped(models, modelType) == g by {
          forall q | q in Providers(models, modelType)
            ensures NamesOf(models, modelType, q) == NamesOf(init, modelType, q)
          {
            NamesOfSnoc(init, last, modelType, q);
          }
        }
      }
    }
  }
}
