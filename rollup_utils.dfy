/**
 * The rollup helpers of the API console build (`api-console/rollup/utils.js`):
 * a truthiness filter and two plugin factories that merge the user's
 * configuration over the defaults. `deepmerge`, `require.resolve` and the
 * plugin factories are functions passed in.
 */
module RollupUtils {
  import opened Js
  import opened Sequences

  /** The JavaScript values a rollup configuration is made of. `NaN` is not modelled. */
  datatype JsValue =
    | Undefined
    | Null
    | Bool(b: bool)
    | Number(n: int)
    | Str(s: string)
    | Array(items: seq<JsValue>)
    | Object(fields: map<string, JsValue>)
    | Function(id: nat)

  /** `!!v` */
  predicate Truthy(v: JsValue)
  {
    match v
    case Undefined => false
    case Null => false
    case Bool(b) => b
    case Number(n) => n != 0
    case Str(s) => s != ""
    case _ => true
  }

  /** `isFalsy = _ => !!_`: despite its name, it holds of the truthy values. */
  function IsFalsy(v: JsValue): (r: bool)
    ensures r <==> Truthy(v)
  {
    !(!Truthy(v))
  }

  /** Used as a `filter` callback, `isFalsy` keeps the truthy entries and drops the falsy ones. */
  lemma FilterIsFalsy(vs: seq<JsValue>, v: JsValue)
    ensures v in Filter(vs, IsFalsy) <==> v in vs && Truthy(v)
  {
    FilterMembership(vs, IsFalsy, v);
  }

  /** `typeof v === 'object'` */
  predicate IsObjectLike(v: JsValue)
  {
    v.Null? || v.Array? || v.Object?
  }

  /** The value merged over the defaults: the user's configuration if it is an object, `{}` otherwise. */
  function MergeSource(userConfig: JsValue): (r: JsValue)
    ensures IsObjectLike(userConfig) ==> r == userConfig
    ensures !IsObjectLike(userConfig) ==> r == Object(map[])
  {
    if IsObjectLike(userConfig) then userConfig else Object(map[])
  }

  /** A plugin entry's name: `plugin[0]` for a `[name, options]` array, the entry itself otherwise. */
  function PluginName(plugin: JsValue): (r: JsValue)
    ensures plugin.Array? && |plugin.items| > 0 ==> r == plugin.items[0]
    ensures plugin.Array? && |plugin.items| == 0 ==> r == Undefined
    ensures !plugin.Array? ==> r == plugin
  {
    match plugin
    case Array(items) => if |items| > 0 then items[0] else Undefined
    case _ => plugin
  }

  /** `require.resolve(name)` of a plugin entry. */
  function Resolved(resolve: JsValue -> string, plugin: JsValue): string
  {
    resolve(PluginName(plugin))
  }

  /** The resolved names of a list of entries. */
  function NamesOf(plugins: seq<JsValue>, resolve: JsValue -> string): set<string>
    decreases |plugins|
  {
    if plugins == [] then {} else {Resolved(resolve, plugins[0])} + NamesOf(plugins[1..], resolve)
  }

  /** The de-duplicated list: an entry stays when no later entry resolves to the same name. */
  function KeepLast(plugins: seq<JsValue>, resolve: JsValue -> string): (r: seq<JsValue>)
    ensures |r| <= |plugins|
    decreases |plugins|
  {
    if plugins == [] then []
    else if Resolved(resolve, plugins[0]) in NamesOf(plugins[1..], resolve) then KeepLast(plugins[1..], resolve)
    else [plugins[0]] + KeepLast(plugins[1..], resolve)
  }

  lemma {:induction false} NamesOfMember(plugins: seq<JsValue>, resolve: JsValue -> string, j: nat)
    requires j < |plugins|
    ensures Resolved(resolve, plugins[j]) in NamesOf(plugins, resolve)
    decreases |plugins|
  {
    if j > 0 {
      NamesOfMember(plugins[1..], resolve, j - 1);
    }
  }

  lemma {:induction false} NamesOfWitness(plugins: seq<JsValue>, resolve: JsValue -> string, name: string) returns (j: nat)
    requires name in NamesOf(plugins, resolve)
    ensures j < |plugins| && Resolved(resolve, plugins[j]) == name
    decreases |plugins|
  {
    if Resolved(resolve, plugins[0]) == name {
      j := 0;
    } else {
      j := NamesOfWitness(plugins[1..], resolve, name);
      j := j + 1;
    }
  }

  /** De-duplication loses no plugin name. */
  lemma {:induction false} KeepLastNames(plugins: seq<JsValue>, resolve: JsValue -> string)
    ensures NamesOf(KeepLast(plugins, resolve), resolve) == NamesOf(plugins, resolve)
    decreases |plugins|
  {
    if plugins != [] {
      KeepLastNames(plugins[1..], resolve);
      var r := KeepLast(plugins, resolve);
      if Resolved(resolve, plugins[0]) !in NamesOf(plugins[1..], resolve) {
        assert r[1..] == KeepLast(plugins[1..], resolve);
      }
    }
  }

  /** No two kept entries resolve to the same name. */
  lemma {:induction false} KeepLastDistinct(plugins: seq<JsValue>, resolve: JsValue -> string)
    ensures forall i, j :: (0 <= i < j < |KeepLast(plugins, resolve)|
      ==> Resolved(resolve, KeepLast(plugins, resolve)[i]) != Resolved(resolve, KeepLast(plugins, resolve)[j]))
    decreases |plugins|
  {
    if plugins != [] {
      var tail := plugins[1..];
      KeepLastDistinct(tail, resolve);
      var rt := KeepLast(tail, resolve);
      if Resolved(resolve, plugins[0]) !in NamesOf(tail, resolve) {
        var r := KeepLast(plugins, resolve);
        assert r == [plugins[0]] + rt;
        KeepLastNames(tail, resolve);
        forall i, j | 0 <= i < j < |r| ensures Resolved(resolve, r[i]) != Resolved(resolve, r[j]) {
          if i == 0 {
            NamesOfMember(rt, resolve, j - 1);
          } else {
            assert r[i] == rt[i - 1] && r[j] == rt[j - 1];
          }
        }
      }
    }
  }

  /** The kept entries appear in the input, in the input's order. */
  lemma {:induction false} KeepLastIsSubsequence(plugins: seq<JsValue>, resolve: JsValue -> string)
    ensures IsSubsequence(KeepLast(plugins, resolve), plugins)
    decreases |plugins|
  {
    if plugins != [] {
      var tail := plugins[1..];
      KeepLastIsSubsequence(tail, resolve);
      assert plugins == [plugins[0]] + tail;
      if Resolved(resolve, plugins[0]) in NamesOf(tail, resolve) {
        SubsequenceSkipFront(KeepLast(tail, resolve), tail, plugins[0]);
      } else {
        SubsequenceConsBoth(KeepLast(tail, resolve), tail, plugins[0]);
      }
    }
  }

  /** An entry is kept exactly when it is the last one with its name. */
  lemma {:induction false} KeepLastKeepsLast(plugins: seq<JsValue>, resolve: JsValue -> string, i: nat)
    requires i < |plugins|
    requires forall j :: i < j < |plugins| ==> Resolved(resolve, plugins[j]) != Resolved(resolve, plugins[i])
    ensures plugins[i] in KeepLast(plugins, resolve)
    decreases |plugins|
  {
    var tail := plugins[1..];
    if i == 0 {
      if Resolved(resolve, plugins[0]) in NamesOf(tail, resolve) {
        var j := NamesOfWitness(tail, resolve, Resolved(resolve, plugins[0]));
        assert false;
      }
    } else {
      assert plugins[i] == tail[i - 1];
      forall j | i - 1 < j < |tail| ensures Resolved(resolve, tail[j]) != Resolved(resolve, tail[i - 1]) {
        assert tail[j] == plugins[j + 1];
      }
      KeepLastKeepsLast(tail, resolve, i - 1);
    }
  }

  /** Every kept entry is the last entry of the input with its name. */
  lemma {:induction false} KeptIsLast(plugins: seq<JsValue>, resolve: JsValue -> string, k: nat) returns (i: nat)
    requires k < |KeepLast(plugins, resolve)|
    ensures i < |plugins| && plugins[i] == KeepLast(plugins, resolve)[k]
    ensures forall j :: i < j < |plugins| ==> Resolved(resolve, plugins[j]) != Resolved(resolve, plugins[i])
    decreases |plugins|
  {
    var tail := plugins[1..];
    var r := KeepLast(plugins, resolve);
    if Resolved(resolve, plugins[0]) !in NamesOf(tail, resolve) && k == 0 {
      i := 0;
      forall j | 0 < j < |plugins| ensures Resolved(resolve, plugins[j]) != Resolved(resolve, plugins[0]) {
        NamesOfMember(tail, resolve, j - 1);
      }
    } else {
      var k' := if Resolved(resolve, plugins[0]) in NamesOf(tail, resolve) then k else k - 1;
      var i' := KeptIsLast(tail, resolve, k');
      i := i' + 1;
      forall j | i < j < |plugins| ensures Resolved(resolve, plugins[j]) != Resolved(resolve, plugins[i]) {
        assert plugins[j] == tail[j - 1];
      }
    }
  }

  /** The entries processed so far when the loop has reached index `i` of the input from the back. */
  lemma NamesOfStep(plugins: seq<JsValue>, resolve: JsValue -> string, i: nat)
    requires i < |plugins|
    ensures NamesOf(plugins[i..], resolve) == {Resolved(resolve, plugins[i])} + NamesOf(plugins[i + 1..], resolve)
    ensures KeepLast(plugins[i..], resolve)
         == (if Resolved(resolve, plugins[i]) in NamesOf(plugins[i + 1..], resolve) then [] else [plugins[i]])
            + KeepLast(plugins[i + 1..], resolve)
  {
    assert plugins[i..][1..] == plugins[i + 1..];
  }

  /**
   * The loop of `dedupedBabelPlugin`: walk a reversed copy, remember the
   * resolved names seen, and `unshift` each entry whose name is new.
   */
  method DedupPlugins(plugins: seq<JsValue>, resolve: JsValue -> string) returns (newPlugins: seq<JsValue>)
    ensures newPlugins == KeepLast(plugins, resolve)
  {
    newPlugins := [];
    var addedPlugins: set<string> := {};
    var i := |plugins|;
    while i > 0
      invariant 0 <= i <= |plugins|
      invariant newPlugins == KeepLast(plugins[i..], resolve)
      invariant addedPlugins == NamesOf(plugins[i..], resolve)
    {
      i := i - 1;
      var plugin := plugins[i];
      var resolvedName := Resolved(resolve, plugin);
      NamesOfStep(plugins, resolve, i);
      if resolvedName !in addedPlugins {
        addedPlugins := addedPlugins + {resolvedName};
        newPlugins := [plugin] + newPlugins;
      }
    }
    assert plugins[0..] == plugins;
  }

  /** The merged rollup configuration as far as the helpers read it. */
  datatype BabelConfig = BabelConfig(plugins: seq<JsValue>, options: map<string, JsValue>)

  /**
   * `dedupedBabelPlugin(babel, userConfig, defaultConfig)`; `None` is
   * `undefined`, and then `babel` is not consulted.
   */
  method DedupedBabelPlugin(babel: BabelConfig -> JsValue, userConfig: JsValue, defaultConfig: JsValue,
                            merge: (JsValue, JsValue) -> BabelConfig, resolve: JsValue -> string)
    returns (r: Option<JsValue>)
    ensures !Truthy(userConfig) ==> r == None
    ensures Truthy(userConfig) ==> r == Some(babel(DedupedConfig(merge(defaultConfig, MergeSource(userConfig)), resolve)))
  {
    if !Truthy(userConfig) {
      return None;
    }
    var config := merge(defaultConfig, MergeSource(userConfig));
    var newPlugins := DedupPlugins(config.plugins, resolve);
    config := config.(plugins := newPlugins);
    return Some(babel(config));
  }

  /** The configuration handed to `babel`: the merged one with its plugin list de-duplicated. */
  function DedupedConfig(config: BabelConfig, resolve: JsValue -> string): (r: BabelConfig)
    ensures r.options == config.options
    ensures NamesOf(r.plugins, resolve) == NamesOf(config.plugins, resolve)
    ensures IsSubsequence(r.plugins, config.plugins)
  {
    KeepLastNames(config.plugins, resolve);
    KeepLastIsSubsequence(config.plugins, resolve);
    config.(plugins := KeepLast(config.plugins, resolve))
  }

  /** `pluginWithOptions(plugin, userConfig, defaultConfig, ...otherParams)`. */
  function PluginWithOptions(plugin: (JsValue, seq<JsValue>) -> JsValue, userConfig: JsValue, defaultConfig: JsValue,
                             otherParams: seq<JsValue>, merge: (JsValue, JsValue) -> JsValue): (r: Option<JsValue>)
    ensures r.None? <==> !Truthy(userConfig)
    ensures r.Some? ==> r.value == plugin(merge(defaultConfig, MergeSource(userConfig)), otherParams)
  {
    if !Truthy(userConfig) then None
    else Some(plugin(merge(defaultConfig, MergeSource(userConfig)), otherParams))
  }

  /** A truthy configuration that is not an object counts as `{}`. */
  lemma NonObjectConfigIsEmpty(plugin: (JsValue, seq<JsValue>) -> JsValue, userConfig: JsValue, defaultConfig: JsValue,
                              otherParams: seq<JsValue>, merge: (JsValue, JsValue) -> JsValue)
    requires Truthy(userConfig) && !IsObjectLike(userConfig)
    ensures PluginWithOptions(plugin, userConfig, defaultConfig, otherParams, merge)
         == PluginWithOptions(plugin, Object(map[]), defaultConfig, otherParams, merge)
  {
  }
}
