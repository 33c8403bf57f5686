/**
 * Role assignment at configuration time: the secret item drawn through the
 * fallback chain (chosen category, then the pooled items of every category,
 * then a fixed default), and the imposters taken as a prefix of a shuffled
 * list of player indices.
 */
module Assignment {
  import opened Common
  import Text

  /** The item used when no fetched option can be drawn. */
  const DefaultItem := "Mystery Item"

  /** One key of the fetched options object and the list of items under it. */
  datatype OptionEntry = OptionEntry(key: string, items: seq<string>)

  /**
   * The settled result of the options fetch: the object's entries in key
   * order (empty after a failure) and whether the fetch failed. A parsed
   * JSON object has distinct keys (`DistinctKeys`); the type does not
   * enforce it, and with a repeated key `Flatten` would pool both lists
   * where `Object.values` holds only the last.
   */
  datatype OptionsResult = OptionsResult(error: bool, entries: seq<OptionEntry>)

  /** An object's keys are distinct. */
  predicate DistinctKeys(es: seq<OptionEntry>) {
    forall i, j | 0 <= i < j < |es| :: es[i].key != es[j].key
  }

  /** `options[key]`: the items under `key`, if the key is present. */
  function Lookup(es: seq<OptionEntry>, key: string): (r: Option<seq<string>>)
    ensures r.None? <==> forall i | 0 <= i < |es| :: es[i].key != key
    ensures r.Some? ==> exists i | 0 <= i < |es| :: es[i].key == key && es[i].items == r.value
  {
    if es == [] then None
    else if es[0].key == key then Some(es[0].items)
    else Lookup(es[1..], key)
  }

  /** The entries as a map from key to items. */
  function AsMap(es: seq<OptionEntry>): (m: map<string, seq<string>>)
    ensures forall i | 0 <= i < |es| :: es[i].key in m
    ensures forall k | k in m :: exists i | 0 <= i < |es| :: es[i].key == k
  {
    if es == [] then map[] else AsMap(es[1..])[es[0].key := es[0].items]
  }

  /** With distinct keys, looking a key up in the entries agrees with the map view. */
  lemma {:induction false} LookupAgreesWithMap(es: seq<OptionEntry>, key: string)
    requires DistinctKeys(es)
    ensures Lookup(es, key).Some? <==> key in AsMap(es)
    ensures key in AsMap(es) ==> Lookup(es, key).value == AsMap(es)[key]
  {
    if es != [] && es[0].key != key {
      LookupAgreesWithMap(es[1..], key);
    }
  }

  /** `Object.values(options).flat()`: every category's items, in key order. */
  function Flatten(es: seq<OptionEntry>): (pool: seq<string>)
    ensures forall i, x | 0 <= i < |es| && x in es[i].items :: x in pool
    ensures forall x | x in pool :: exists i | 0 <= i < |es| :: x in es[i].items
    ensures |pool| == 0 <==> forall i | 0 <= i < |es| :: es[i].items == []
  {
    if es == [] then []
    else
      var rest := Flatten(es[1..]);
      assert forall i | 1 <= i < |es| :: es[i] == es[1..][i - 1];
      es[0].items + rest
  }

  /** The pool of one entry is that entry's list. */
  lemma FlattenSingle(e: OptionEntry)
    ensures Flatten([e]) == e.items
  {
    assert [e][1..] == [];
  }

  /** Pooling splits over concatenation: the lists are joined in key order. */
  lemma {:induction false} FlattenAppend(xs: seq<OptionEntry>, ys: seq<OptionEntry>)
    ensures Flatten(xs + ys) == Flatten(xs) + Flatten(ys)
  {
    if xs == [] {
      assert xs + ys == ys;
    } else {
      assert (xs + ys)[1..] == xs[1..] + ys;
      FlattenAppend(xs[1..], ys);
    }
  }

  /** `Math.floor(r * len)` for a random `r` in [0, 1): an index into a list of length `len`. */
  function ScaledIndex(r: real, len: nat): (i: nat)
    requires 0.0 <= r < 1.0 && len > 0
    ensures i < len
    ensures i as real <= r * len as real < i as real + 1.0
  {
    assert r * len as real < len as real;
    (r * len as real).Floor
  }

  /** Every position of the list is drawn by some random value, so no item is out of reach. */
  lemma ScaledIndexReaches(k: nat, len: nat)
    requires k < len
    ensures 0.0 <= k as real / len as real < 1.0
    ensures ScaledIndex(k as real / len as real, len) == k
  {
    var r := k as real / len as real;
    assert r * len as real == k as real;
  }

  /** Which step of the fallback chain produced the item. */
  datatype ItemSource = FromCategory | FromPool | Fallback

  datatype ItemChoice = ItemChoice(item: string, source: ItemSource)

  /** The chosen category's list, looked up under the lower-cased key, when present and non-empty. */
  predicate HasCategoryItems(es: seq<OptionEntry>, category: string) {
    var l := Lookup(es, Text.ToLower(category));
    l.Some? && |l.value| > 0
  }

  /**
   * The secret item for a round: the default after a failed fetch or with no
   * keys at all; else an item of the chosen category; else an item of the
   * pooled lists; else the default.
   */
  function SelectItem(opts: OptionsResult, category: string, r: real): (c: ItemChoice)
    requires 0.0 <= r < 1.0
    ensures opts.error || |opts.entries| == 0 ==> c == ItemChoice(DefaultItem, Fallback)
    ensures c.source == FromCategory <==>
      !opts.error && |opts.entries| > 0 && HasCategoryItems(opts.entries, category)
    ensures c.source == FromCategory ==> c.item in Lookup(opts.entries, Text.ToLower(category)).value
    ensures c.source == FromPool <==>
      !opts.error && |opts.entries| > 0 && !HasCategoryItems(opts.entries, category) && |Flatten(opts.entries)| > 0
    ensures c.source == FromPool ==> c.item in Flatten(opts.entries)
    ensures c.source == Fallback ==> c.item == DefaultItem
  {
    if opts.error || |opts.entries| == 0 then ItemChoice(DefaultItem, Fallback)
    else
      var categoryOptions := Lookup(opts.entries, Text.ToLower(category));
      if categoryOptions.Some? && |categoryOptions.value| > 0 then
        ItemChoice(categoryOptions.value[ScaledIndex(r, |categoryOptions.value|)], FromCategory)
      else
        var allOptions := Flatten(opts.entries);
        if |allOptions| > 0 then ItemChoice(allOptions[ScaledIndex(r, |allOptions|)], FromPool)
        else ItemChoice(DefaultItem, Fallback)
  }

  /** Any item of the chosen category's list can be drawn, for a suitable random value. */
  lemma CategoryItemReachable(opts: OptionsResult, category: string, k: nat)
    requires !opts.error && |opts.entries| > 0 && HasCategoryItems(opts.entries, category)
    requires k < |Lookup(opts.entries, Text.ToLower(category)).value|
    ensures exists r: real | 0.0 <= r < 1.0 ::
      SelectItem(opts, category, r).item == Lookup(opts.entries, Text.ToLower(category)).value[k]
  {
    var len := |Lookup(opts.entries, Text.ToLower(category)).value|;
    ScaledIndexReaches(k, len);
    var r := k as real / len as real;
    assert SelectItem(opts, category, r).item == Lookup(opts.entries, Text.ToLower(category)).value[k];
  }

  /**
   * When the chosen category has no items, any item of the pooled lists can
   * be drawn, for a suitable random value.
   */
  lemma PoolItemReachable(opts: OptionsResult, category: string, k: nat)
    requires !opts.error && |opts.entries| > 0 && !HasCategoryItems(opts.entries, category)
    requires k < |Flatten(opts.entries)|
    ensures exists r: real | 0.0 <= r < 1.0 ::
      SelectItem(opts, category, r) == ItemChoice(Flatten(opts.entries)[k], FromPool)
  {
    var len := |Flatten(opts.entries)|;
    ScaledIndexReaches(k, len);
    var r := k as real / len as real;
    assert SelectItem(opts, category, r) == ItemChoice(Flatten(opts.entries)[k], FromPool);
  }

  /** No index occurs twice. */
  predicate Distinct(xs: seq<int>) {
    forall i, j | 0 <= i < j < |xs| :: xs[i] != xs[j]
  }

  /** `xs` is an ordering of the player indices 0 .. n-1. */
  predicate IsPermutation(xs: seq<int>, n: nat) {
    |xs| == n && Distinct(xs) && forall i | 0 <= i < |xs| :: 0 <= xs[i] < n
  }

  /**
   * The imposter indices: the first `imposters` entries of the shuffled
   * index list (all of it when there are fewer), or none when the count is
   * not positive.
   */
  function ChooseImposters(players: nat, imposters: int, shuffled: seq<int>): (ids: seq<int>)
    requires IsPermutation(shuffled, players)
    ensures imposters <= 0 ==> ids == []
    ensures imposters > 0 ==> |ids| == if imposters < players then imposters else players
    ensures imposters > 0 ==> ids == shuffled[..|ids|]
    ensures Distinct(ids)
    ensures forall i | 0 <= i < |ids| :: 0 <= ids[i] < players
  {
    if imposters > 0 then
      shuffled[..if imposters < players then imposters else players]
    else []
  }

  /** The list 0, 1, ..., n-1 with `j` moved to the front. */
  function FrontFirst(j: nat, n: nat): (xs: seq<int>)
    requires j < n
    ensures IsPermutation(xs, n)
    ensures xs[0] == j
  {
    var xs := [j] + seq(j, i => i) + seq(n - j - 1, i => j + 1 + i);
    assert forall i | 1 <= i <= j :: xs[i] == i - 1;
    assert forall i | j < i < n :: xs[i] == i;
    xs
  }

  /** Any player can be made an imposter by some shuffle, whatever the imposter count. */
  lemma EveryPlayerCanBeImposter(players: nat, imposters: int, j: nat)
    requires j < players && imposters > 0
    ensures exists shuffled | IsPermutation(shuffled, players) ::
      j in ChooseImposters(players, imposters, shuffled)
  {
    var xs := FrontFirst(j, players);
    assert ChooseImposters(players, imposters, xs)[0] == j;
  }
}
