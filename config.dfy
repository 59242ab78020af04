// The layered configuration store: a map from key to setting. Datasets and
// overrides replace the map with an updated copy; the typed getters look a key
// up, interpret its text (caching the parsed value in the setting) and fall
// back to the caller's default when the key is missing or the value is out of
// bounds.
module Configs {
  import opened Wrappers
  import opened JavaInt
  import opened JavaParse
  import ByteBufUtils

  /** The key prefix used by the `getFW*` getters when neither the environment nor a system property names one. */
  const DEFAULT_FW_PREFIX: string := "com.denaliai.fw."

  /** The four value getters. */
  datatype Getter = IntGetter | LongGetter | BoolGetter | StringGetter

  /** What `getValue` returns: a boxed `Integer`, `Long`, `Boolean` or `String`. */
  datatype Val = IntV(i: int) | LongV(l: int) | BoolV(b: bool) | StrV(s: string)

  /** The immutable part of a setting: its text and where it came from. */
  datatype Text = Text(value: string, source: string)

  function KindOf(v: Val): Getter
  {
    match v
    case IntV(_) => IntGetter
    case LongV(_) => LongGetter
    case BoolV(_) => BoolGetter
    case StrV(_) => StringGetter
  }

  // ---- Java's text-to-boolean reader ----

  function Lower(c: char): char
  {
    if 'A' <= c <= 'Z' then (c as int + 32) as char else c
  }

  /** `String.equalsIgnoreCase`, over ASCII letters. */
  predicate EqualsIgnoreCase(a: string, b: string)
  {
    |a| == |b| && forall i | 0 <= i < |a| :: Lower(a[i]) == Lower(b[i])
  }

  /** `Boolean.parseBoolean`: true exactly for "true" in any letter case, false for every other text. */
  function ParseBoolean(s: string): (b: bool)
    ensures b ==> |s| == 4
  {
    EqualsIgnoreCase(s, "true")
  }

  /** What `getValueAs` gives for a setting's text: the parsed number or null, the boolean, or the text itself. */
  function Interpret(g: Getter, text: string): (v: Option<Val>)
    ensures v.Some? ==> KindOf(v.value) == g
    ensures v.None? <==> (g == IntGetter && ParseInt(text).None?) || (g == LongGetter && ParseLong(text).None?)
  {
    match g
    case IntGetter => if ParseInt(text).Some? then Some(IntV(ParseInt(text).value)) else None
    case LongGetter => if ParseLong(text).Some? then Some(LongV(ParseLong(text).value)) else None
    case BoolGetter => Some(BoolV(ParseBoolean(text)))
    case StringGetter => Some(StrV(text))
  }

  /** One configuration value, with the parsed forms cached on first use. */
  class Setting {
    const name: string
    const source: string
    const strValue: string
    var intValue: Option<int>
    var longValue: Option<int>
    var boolValue: Option<bool>

    /** A cached value is always the parse of the text. */
    ghost predicate Valid()
      reads this
    {
      (intValue.Some? ==> intValue == ParseInt(strValue)) &&
      (longValue.Some? ==> longValue == ParseLong(strValue)) &&
      (boolValue.Some? ==> boolValue == Some(ParseBoolean(strValue)))
    }

    constructor (name: string, value: string, source: string)
      ensures Valid() && this.name == name && strValue == value && this.source == source
      ensures intValue.None? && longValue.None? && boolValue.None?
    {
      this.name := name;
      strValue := value;
      this.source := source;
      intValue := None;
      longValue := None;
      boolValue := None;
    }

    /**
     * `getValueAs` of the chosen getter: parses on first use and caches the
     * result; a text that does not parse gives null and caches nothing.
     */
    method GetValueAs(g: Getter) returns (v: Option<Val>)
      requires Valid()
      modifies this
      ensures Valid() && v == Interpret(g, strValue)
    {
      match g
      case IntGetter =>
        if intValue.None? {
          var p := ParseInt(strValue);
          if p.None? {
            return None;
          }
          intValue := p;
        }
        v := Some(IntV(intValue.value));
      case LongGetter =>
        if longValue.None? {
          var p := ParseLong(strValue);
          if p.None? {
            return None;
          }
          longValue := p;
        }
        v := Some(LongV(longValue.value));
      case BoolGetter =>
        if boolValue.None? {
          boolValue := Some(ParseBoolean(strValue));
        }
        v := Some(BoolV(boolValue.value));
      case StringGetter =>
        v := Some(StrV(strValue));
    }
  }

  function TextOf(s: Setting): Text
  {
    Text(s.strValue, s.source)
  }

  /** The texts of a settings map, key by key. */
  function Texts(m: map<string, Setting>): (t: map<string, Text>)
    ensures t.Keys == m.Keys
    ensures forall k | k in m :: t[k] == TextOf(m[k])
  {
    map k | k in m :: TextOf(m[k])
  }

  lemma TextsUpdate(m: map<string, Setting>, k: string, s: Setting)
    ensures Texts(m[k := s]) == Texts(m)[k := TextOf(s)]
  {
  }

  // ---- The dataset and override rules ----

  /** Whether some entry of the dataset has key `k`. */
  predicate Names(data: seq<(string, string)>, k: string)
  {
    data != [] && (data[|data| - 1].0 == k || Names(data[..|data| - 1], k))
  }

  /** The texts `addConfigDataset` leaves: each entry in turn put over the map. */
  function Overlay(m: map<string, Text>, data: seq<(string, string)>, source: string): (r: map<string, Text>)
    ensures forall k :: k in r <==> k in m || Names(data, k)
  {
    if data == [] then m
    else
      var last := data[|data| - 1];
      Overlay(m, data[..|data| - 1], source)[last.0 := Text(last.1, source)]
  }

  /** For a key given more than once, the last entry wins. */
  lemma {:induction false} OverlayLastWins(m: map<string, Text>, data: seq<(string, string)>, source: string, i: nat)
    requires i < |data| && forall j | i < j < |data| :: data[j].0 != data[i].0
    ensures data[i].0 in Overlay(m, data, source) && Overlay(m, data, source)[data[i].0] == Text(data[i].1, source)
    decreases |data|
  {
    if i < |data| - 1 {
      OverlayLastWins(m, data[..|data| - 1], source, i);
    }
  }

  /** A key the dataset does not name keeps its setting, or stays absent. */
  lemma {:induction false} OverlayKeepsOthers(m: map<string, Text>, data: seq<(string, string)>, source: string, k: string)
    requires !Names(data, k)
    ensures k in Overlay(m, data, source) <==> k in m
    ensures k in m ==> Overlay(m, data, source)[k] == m[k]
    decreases |data|
  {
    if data != [] {
      OverlayKeepsOthers(m, data[..|data| - 1], source, k);
    }
  }

  // ---- The typed lookups ----

  /**
   * `getValue` as written: a missing key gives the default, and a present one
   * gives whatever the getter returns, null included.
   */
  function GetValueAsWritten(settings: map<string, Setting>, key: string, default: Option<Val>, g: Getter): (r: Option<Val>)
    ensures key !in settings ==> r == default
    ensures key in settings ==> r == Interpret(g, settings[key].strValue)
  {
    if key !in settings then default else Interpret(g, settings[key].strValue)
  }

  /**
   * As written, a present value the getter cannot read comes back as null, not
   * as the default the warning announces, and `getInt` passes the null on.
   */
  lemma UnreadableIsNullAsWritten(settings: map<string, Setting>, key: string, min: int, max: int, d: int)
    requires key in settings && ParseInt(settings[key].strValue).None?
    ensures GetValueAsWritten(settings, key, Some(IntV(d)), IntGetter) == None
    ensures GetValue(settings, key, Some(IntV(d)), IntGetter) == Some(IntV(d))
    ensures IntSetting(AsWritten, settings, key, min, max, Some(d)) == None
    ensures IntSetting(Corrected, settings, key, min, max, Some(d)) == Some(d)
  {
  }

  /** A text that is not a number is such a value. */
  lemma NotANumber()
    ensures ParseInt("ten").None? && ParseLong("").None? && ParseInt("-").None?
  {
    assert !ByteBufUtils.IsDigit("ten"[0]);
  }

  /**
   * `getValue`, with the fallback its warning describes: the getter's reading of
   * the value when there is one, and otherwise the default.
   */
  function GetValue(settings: map<string, Setting>, key: string, default: Option<Val>, g: Getter): (r: Option<Val>)
    ensures key !in settings ==> r == default
    ensures key in settings && Interpret(g, settings[key].strValue).Some? ==> r == Interpret(g, settings[key].strValue)
    ensures r == default || (key in settings && r == Interpret(g, settings[key].strValue))
  {
    if key !in settings then default
    else
      var v := Interpret(g, settings[key].strValue);
      if v.None? then default else v
  }

  /**
   * Which fallback a lookup follows for a present value the getter cannot read:
   * the null `getValue` returns as written, or the default its warning announces.
   */
  datatype FallbackRule = AsWritten | Corrected

  /** `getValue` under either fallback. */
  function Lookup(rule: FallbackRule, settings: map<string, Setting>, key: string, default: Option<Val>, g: Getter): (r: Option<Val>)
    ensures key !in settings ==> r == default
    ensures key in settings && Interpret(g, settings[key].strValue).Some? ==> r == Interpret(g, settings[key].strValue)
    ensures key in settings && Interpret(g, settings[key].strValue).None? ==> r == (if rule == AsWritten then None else default)
  {
    match rule
    case AsWritten => GetValueAsWritten(settings, key, default, g)
    case Corrected => GetValue(settings, key, default, g)
  }

  function AsInt(v: Option<Val>): Option<int>
  {
    if v.Some? && v.value.IntV? then Some(v.value.i) else None
  }

  function AsLong(v: Option<Val>): Option<int>
  {
    if v.Some? && v.value.LongV? then Some(v.value.l) else None
  }

  function Boxed(d: Option<int>, g: Getter): Option<Val>
  {
    if d.None? then None else if g == IntGetter then Some(IntV(d.value)) else Some(LongV(d.value))
  }

  /** The bounds rule of `getInt`/`getLong`: a value below `min` or above `max` gives the default. */
  function Bounded(v: Option<int>, min: int, max: int, default: Option<int>): (r: Option<int>)
    ensures r == default || (r == v && r.Some? && min <= r.value <= max) || (r == v && v.None?)
    ensures v.Some? && min <= v.value <= max ==> r == v
    ensures v.Some? && !(min <= v.value <= max) ==> r == default
  {
    if v.Some? then (if v.value < min then default else if v.value > max then default else v) else v
  }

  /**
   * `getInt(key, min, max, default)`: the key's value read as an int when it
   * reads and lies in `min..max`, the default when the key is missing or the
   * value is out of bounds, and for an unreadable value what the rule says.
   */
  function IntSetting(rule: FallbackRule, settings: map<string, Setting>, key: string, min: int, max: int, default: Option<int>): (r: Option<int>)
    ensures key !in settings ==> r == default
    ensures key in settings && ParseInt(settings[key].strValue).Some? ==>
      r == if min <= ParseInt(settings[key].strValue).value <= max then ParseInt(settings[key].strValue) else default
    ensures key in settings && ParseInt(settings[key].strValue).None? ==> r == (if rule == AsWritten then None else default)
  {
    Bounded(AsInt(Lookup(rule, settings, key, Boxed(default, IntGetter), IntGetter)), min, max, default)
  }

  /** `getLong(key, min, max, default)`, the same rule over the long range. */
  function LongSetting(rule: FallbackRule, settings: map<string, Setting>, key: string, min: int, max: int, default: Option<int>): (r: Option<int>)
    ensures key !in settings ==> r == default
    ensures key in settings && ParseLong(settings[key].strValue).Some? ==>
      r == if min <= ParseLong(settings[key].strValue).value <= max then ParseLong(settings[key].strValue) else default
    ensures key in settings && ParseLong(settings[key].strValue).None? ==> r == (if rule == AsWritten then None else default)
  {
    Bounded(AsLong(Lookup(rule, settings, key, Boxed(default, LongGetter), LongGetter)), min, max, default)
  }

  /**
   * `getInt(key, default)`: the full int range, so every readable value is
   * returned; a missing key gives the default, and an unreadable value what the
   * rule says.
   */
  lemma FullIntRange(rule: FallbackRule, settings: map<string, Setting>, key: string, default: Option<int>)
    ensures IntSetting(rule, settings, key, INT_MIN, INT_MAX, default) ==
      if key !in settings then default
      else if ParseInt(settings[key].strValue).Some? then ParseInt(settings[key].strValue)
      else if rule == AsWritten then None
      else default
  {
  }

  /** `getBoolean`: a present value always reads, so the default is used only for a missing key. */
  function BoolSetting(settings: map<string, Setting>, key: string, default: Option<bool>): (r: Option<bool>)
    ensures key !in settings ==> r == default
    ensures key in settings ==> r == Some(EqualsIgnoreCase(settings[key].strValue, "true"))
  {
    var v := GetValueAsWritten(settings, key, if default.Some? then Some(BoolV(default.value)) else None, BoolGetter);
    if v.Some? && v.value.BoolV? then Some(v.value.b) else None
  }

  /** `getString`: the raw text of a present key. */
  function StringSetting(settings: map<string, Setting>, key: string, default: Option<string>): (r: Option<string>)
    ensures key !in settings ==> r == default
    ensures key in settings ==> r == Some(settings[key].strValue)
  {
    var v := GetValueAsWritten(settings, key, if default.Some? then Some(StrV(default.value)) else None, StringGetter);
    if v.Some? && v.value.StrV? then Some(v.value.s) else None
  }

  /** A map filed by name whose caches agree with their texts. */
  ghost predicate Filed(m: map<string, Setting>)
    reads m.Values
  {
    forall k | k in m :: m[k].name == k && m[k].Valid()
  }

  /** The loop of `addConfigDataset`: a copy of `m` with a new setting put for each entry in turn. */
  method PutAll(m: map<string, Setting>, sourceName: string, data: seq<(string, string)>) returns (r: map<string, Setting>)
    requires Filed(m)
    ensures Filed(r)
    ensures Texts(r) == Overlay(Texts(m), data, sourceName)
    ensures forall k | k in m && !Names(data, k) :: k in r && r[k] == m[k]
  {
    r := m;
    var i := 0;
    while i < |data|
      invariant i <= |data|
      invariant Filed(r)
      invariant Texts(r) == Overlay(Texts(m), data[..i], sourceName)
      invariant forall k | k in m && !Names(data[..i], k) :: k in r && r[k] == m[k]
    {
      var s := new Setting(data[i].0, data[i].1, sourceName);
      assert data[..i + 1][..i] == data[..i];
      TextsUpdate(r, s.name, s);
      r := r[s.name := s];
      i := i + 1;
    }
    assert data[..|data|] == data;
  }

  /** The configuration's global state. */
  class Config {
    /** `FW_PREFIX` */
    const fwPrefix: string
    /** `m_settings` */
    var settings: map<string, Setting>

    /** Every setting is filed under its own name and its cache agrees with its text. */
    ghost predicate Valid()
      reads this, settings.Values
    {
      Filed(settings)
    }

    /** The store before any dataset, with the prefix the environment chose. */
    constructor (fwPrefix: string)
      ensures Valid() && settings == map[] && this.fwPrefix == fwPrefix
    {
      this.fwPrefix := fwPrefix;
      settings := map[];
    }

    /**
     * `addConfigDataset(sourceName, data)`: each entry in turn is put into a copy
     * of the map, so a later entry for the same key wins, and keys the dataset
     * does not name keep their setting object.
     */
    method AddConfigDataset(sourceName: string, data: seq<(string, string)>)
      requires Valid()
      modifies this
      ensures Valid()
      ensures Texts(settings) == Overlay(Texts(old(settings)), data, sourceName)
      ensures forall k | k in old(settings) && !Names(data, k) :: settings[k] == old(settings)[k]
    {
      settings := PutAll(settings, sourceName, data);
    }

    /** `overrideValue(sourceName, key, value)`: a new setting replaces whatever the key held. */
    method OverrideValue(sourceName: string, key: string, value: string)
      requires Valid()
      modifies this
      ensures Valid()
      ensures key in settings && fresh(settings[key])
      ensures Texts(settings) == Texts(old(settings))[key := Text(value, sourceName)]
      ensures forall k | k in old(settings) && k != key :: settings[k] == old(settings)[k]
    {
      var s := new Setting(key, value, sourceName);
      TextsUpdate(settings, key, s);
      settings := settings[key := s];
    }

    /** `addDefaultValue(sourceName, key, value)`: an override for a key not set yet, and nothing otherwise. */
    method AddDefaultValue(sourceName: string, key: string, value: string)
      requires Valid()
      modifies this
      ensures Valid()
      ensures old(key in settings) ==> settings == old(settings)
      ensures old(key !in settings) ==> (key in settings && fresh(settings[key]) &&
        Texts(settings) == Texts(old(settings))[key := Text(value, sourceName)] &&
        forall k | k in old(settings) :: settings[k] == old(settings)[k])
    {
      if key in settings {
        return;
      }
      OverrideValue(sourceName, key, value);
    }

    /** `getValue(key, default, getter)`: the lookup; only the looked-up setting's cache may change. */
    method GetValueOf(rule: FallbackRule, key: string, default: Option<Val>, g: Getter) returns (r: Option<Val>)
      requires Valid()
      modifies if key in settings then {settings[key]} else {}
      ensures Valid() && settings == old(settings)
      ensures r == Lookup(rule, settings, key, default, g)
    {
      if key !in settings {
        return default;
      }
      var s := settings[key];
      var v := s.GetValueAs(g);
      if v.None? {
        r := if rule == AsWritten then None else default;
      } else {
        r := v;
      }
    }

    /** `getInt(key, min, max, default)` */
    method GetInt(rule: FallbackRule, key: string, min: int, max: int, default: Option<int>) returns (r: Option<int>)
      requires Valid()
      modifies if key in settings then {settings[key]} else {}
      ensures Valid() && settings == old(settings)
      ensures r == IntSetting(rule, settings, key, min, max, default)
    {
      var v := GetValueOf(rule, key, Boxed(default, IntGetter), IntGetter);
      r := AsInt(v);
      if r.Some? {
        if r.value < min {
          return default;
        }
        if r.value > max {
          return default;
        }
      }
    }

    /** `getLong(key, min, max, default)` */
    method GetLong(rule: FallbackRule, key: string, min: int, max: int, default: Option<int>) returns (r: Option<int>)
      requires Valid()
      modifies if key in settings then {settings[key]} else {}
      ensures Valid() && settings == old(settings)
      ensures r == LongSetting(rule, settings, key, min, max, default)
    {
      var v := GetValueOf(rule, key, Boxed(default, LongGetter), LongGetter);
      r := AsLong(v);
      if r.Some? {
        if r.value < min {
          return default;
        }
        if r.value > max {
          return default;
        }
      }
    }

    /** `getBoolean(key, default)` */
    method GetBoolean(key: string, default: Option<bool>) returns (r: Option<bool>)
      requires Valid()
      modifies if key in settings then {settings[key]} else {}
      ensures Valid() && settings == old(settings)
      ensures r == BoolSetting(settings, key, default)
    {
      var v := GetValueOf(AsWritten, key, if default.Some? then Some(BoolV(default.value)) else None, BoolGetter);
      r := if v.Some? && v.value.BoolV? then Some(v.value.b) else None;
    }

    /** `getString(key, default)` */
    method GetString(key: string, default: Option<string>) returns (r: Option<string>)
      requires Valid()
      modifies if key in settings then {settings[key]} else {}
      ensures Valid() && settings == old(settings)
      ensures r == StringSetting(settings, key, default)
    {
      var v := GetValueOf(AsWritten, key, if default.Some? then Some(StrV(default.value)) else None, StringGetter);
      r := if v.Some? && v.value.StrV? then Some(v.value.s) else None;
    }

    /** `getFWInt`: `getInt` under the framework prefix. */
    method GetFWInt(rule: FallbackRule, key: string, min: int, max: int, default: Option<int>) returns (r: Option<int>)
      requires Valid()
      modifies if fwPrefix + key in settings then {settings[fwPrefix + key]} else {}
      ensures Valid() && settings == old(settings)
      ensures r == IntSetting(rule, settings, fwPrefix + key, min, max, default)
    {
      r := GetInt(rule, fwPrefix + key, min, max, default);
    }

    /** `getFWLong` */
    method GetFWLong(rule: FallbackRule, key: string, min: int, max: int, default: Option<int>) returns (r: Option<int>)
      requires Valid()
      modifies if fwPrefix + key in settings then {settings[fwPrefix + key]} else {}
      ensures Valid() && settings == old(settings)
      ensures r == LongSetting(rule, settings, fwPrefix + key, min, max, default)
    {
      r := GetLong(rule, fwPrefix + key, min, max, default);
    }

    /** `getFWBoolean` */
    method GetFWBoolean(key: string, default: Option<bool>) returns (r: Option<bool>)
      requires Valid()
      modifies if fwPrefix + key in settings then {settings[fwPrefix + key]} else {}
      ensures Valid() && settings == old(settings)
      ensures r == BoolSetting(settings, fwPrefix + key, default)
    {
      r := GetBoolean(fwPrefix + key, default);
    }

    /** `getFWString` */
    method GetFWString(key: string, default: Option<string>) returns (r: Option<string>)
      requires Valid()
      modifies if fwPrefix + key in settings then {settings[fwPrefix + key]} else {}
      ensures Valid() && settings == old(settings)
      ensures r == StringSetting(settings, fwPrefix + key, default)
    {
      r := GetString(fwPrefix + key, default);
    }
  }
}
