/**
  Aggregation configs: validation, the two indexes built from a config list, and the lookup of the
  configs that a data point matches.
*/
module Aggregation {
  import opened Basics

  datatype AggregationType = Last | Rate | Max | Sum | Percentile | Unknown(name: string)

  datatype Config = Config(
    key: string,
    name: string,
    labels: map<string, string>,
    typ: AggregationType,
    percentile: real,
    groupBy: string)

  datatype ConfigError =
    | MissingName
    | MissingKey
    | InvalidType
    | InvalidPercentile
    | DuplicateKey
    | DifferentTypes
    | DuplicateConfig

  predicate IsValidType(t: AggregationType) {
    !t.Unknown?
  }

  function Validate(cfg: Config): Option<ConfigError> {
    if cfg.name == "" then Some(MissingName)
    else if cfg.key == "" then Some(MissingKey)
    else if !IsValidType(cfg.typ) then Some(InvalidType)
    else if cfg.typ == Percentile && (cfg.percentile <= 0.0 || cfg.percentile > 100.0) then Some(InvalidPercentile)
    else None
  }

  function CheckDuplicate(src: Config, target: Config): Option<ConfigError> {
    if src.name != target.name then None
    else if |src.labels| != |target.labels| then None
    else if exists k :: k in src.labels && (k !in target.labels || src.labels[k] != target.labels[k]) then None
    else if src.typ != target.typ then Some(DifferentTypes)
    else if src.typ == Percentile && src.percentile != target.percentile then None
    else Some(DuplicateConfig)
  }

  // ---------------------------------------------------------------- what a valid list is

  predicate ValidConfig(cfg: Config) {
    && cfg.name != "" && cfg.key != ""
    && cfg.typ in {Last, Rate, Max, Sum, Percentile}
    && (cfg.typ == Percentile ==> 0.0 < cfg.percentile <= 100.0)
  }

  /** Two configs of one list may share name and label map only as two different percentiles. */
  predicate Compatible(a: Config, b: Config) {
    && a.key != b.key
    && (a.name == b.name && a.labels == b.labels ==>
          a.typ == Percentile && b.typ == Percentile && a.percentile != b.percentile)
  }

  predicate ValidList(cfgs: seq<Config>) {
    && (forall i :: 0 <= i < |cfgs| ==> ValidConfig(cfgs[i]))
    && (forall i, j :: 0 <= i < j < |cfgs| ==> Compatible(cfgs[i], cfgs[j]))
  }

  lemma ValidateIsValidConfig(cfg: Config)
    ensures Validate(cfg).None? <==> ValidConfig(cfg)
  {
  }

  lemma {:induction false} SubsetSize(a: set<string>, b: set<string>)
    requires a <= b
    ensures |a| <= |b|
  {
    if a != {} {
      var x :| x in a;
      SubsetSize(a - {x}, b - {x});
    }
  }

  lemma {:induction false} SameSizeSubset(a: set<string>, b: set<string>)
    requires a <= b && |a| == |b|
    ensures a == b
  {
    if exists x :: x in b && x !in a {
      var x :| x in b && x !in a;
      SubsetSize(a, b - {x});
    }
  }

  /** A map that is as large as another and agrees with it on its own keys is the same map. */
  lemma SameSizeSubmap(a: map<string, string>, b: map<string, string>)
    requires |a| == |b| && forall k :: k in a ==> k in b && b[k] == a[k]
    ensures a == b
  {
    assert a.Keys <= b.Keys && |a.Keys| == |b.Keys|;
    SameSizeSubset(a.Keys, b.Keys);
  }

  /** With distinct keys, the duplicate check accepts exactly the compatible pairs. */
  lemma CheckDuplicateIsCompatible(src: Config, target: Config)
    requires src.key != target.key
    ensures CheckDuplicate(src, target).None? <==> Compatible(src, target)
  {
    if |src.labels| == |target.labels|
      && !exists k :: k in src.labels && (k !in target.labels || src.labels[k] != target.labels[k])
    {
      SameSizeSubmap(src.labels, target.labels);
    }
  }

  // ---------------------------------------------------------------- the indexes

  function ByName(cfgs: seq<Config>, name: string): (r: seq<Config>)
    ensures forall c :: c in r <==> c in cfgs && c.name == name
  {
    if cfgs == [] then []
    else
      var init, last := cfgs[..|cfgs| - 1], cfgs[|cfgs| - 1];
      assert cfgs == init + [last];
      ByName(init, name) + (if last.name == name then [last] else [])
  }

  ghost predicate KeyIndex(cfgs: seq<Config>, keyM: map<string, Config>) {
    && (forall k :: k in keyM ==> keyM[k] in cfgs && keyM[k].key == k)
    && (forall c :: c in cfgs ==> c.key in keyM && keyM[c.key] == c)
  }

  ghost predicate NameIndex(cfgs: seq<Config>, nameM: map<string, seq<Config>>) {
    && (forall n :: n in nameM <==> ByName(cfgs, n) != [])
    && (forall n :: n in nameM ==> nameM[n] == ByName(cfgs, n))
  }

  /** The two indexes agree with the list, and so with each other. */
  ghost predicate IndexesList(cfgs: seq<Config>, keyM: map<string, Config>, nameM: map<string, seq<Config>>) {
    KeyIndex(cfgs, keyM) && NameIndex(cfgs, nameM)
  }

  function FirstDuplicate(cfgs: seq<Config>, c: Config): Option<ConfigError> {
    if cfgs == [] then None
    else if CheckDuplicate(cfgs[0], c).Some? then CheckDuplicate(cfgs[0], c)
    else FirstDuplicate(cfgs[1..], c)
  }

  /** The error that `c` raises when the configs before it have been accepted. */
  function ErrorAfter(before: seq<Config>, c: Config): Option<ConfigError> {
    if Validate(c).Some? then Validate(c)
    else if exists b :: b in before && b.key == c.key then Some(DuplicateKey)
    else FirstDuplicate(ByName(before, c.name), c)
  }

  lemma {:induction false} FirstDuplicateNone(cfgs: seq<Config>, c: Config)
    ensures FirstDuplicate(cfgs, c).None? <==> forall b :: b in cfgs ==> CheckDuplicate(b, c).None?
  {
    if cfgs != [] {
      assert cfgs == [cfgs[0]] + cfgs[1..];
      FirstDuplicateNone(cfgs[1..], c);
    }
  }

  /** A valid list stays valid exactly when the next config raises no error. */
  lemma ValidListExtends(before: seq<Config>, c: Config)
    requires ValidList(before)
    ensures ValidList(before + [c]) <==> ErrorAfter(before, c).None?
  {
    var all := before + [c];
    FirstDuplicateNone(ByName(before, c.name), c);
    ValidateIsValidConfig(c);
    assert all[|before|] == c;
    if ErrorAfter(before, c).None? {
      forall i, j | 0 <= i < j < |all|
        ensures Compatible(all[i], all[j])
      {
        if j == |before| {
          assert all[i] in before;
          CheckDuplicateIsCompatible(all[i], c);
        }
      }
    }
    if ValidList(all) {
      forall b | b in before
        ensures b.key != c.key && CheckDuplicate(b, c).None?
      {
        var i :| 0 <= i < |before| && before[i] == b;
        assert Compatible(all[i], all[|before|]);
        CheckDuplicateIsCompatible(b, c);
      }
    }
  }

  lemma PrefixValid(cfgs: seq<Config>, n: nat)
    requires n <= |cfgs| && ValidList(cfgs)
    ensures ValidList(cfgs[..n])
  {
  }

  // ---------------------------------------------------------------- which error

  /** The pair shares name and labels, and has different types or is not of two percentiles. */
  predicate Clashes(a: Config, b: Config, e: ConfigError) {
    && a.name == b.name && a.labels == b.labels
    && match e
       case DifferentTypes => a.typ != b.typ
       case DuplicateConfig => a.typ == b.typ && !(a.typ == Percentile && a.percentile != b.percentile)
       case _ => false
  }

  predicate NoClash(a: Config, b: Config) {
    !Clashes(a, b, DifferentTypes) && !Clashes(a, b, DuplicateConfig)
  }

  /** The error of a config `c` after the configs `before` have been accepted: what is wrong with the
      config itself comes first, then its key, then the first config that it clashes with. */
  ghost predicate IsErrorOf(before: seq<Config>, c: Config, e: ConfigError) {
    match e
    case MissingName => c.name == ""
    case MissingKey => c.name != "" && c.key == ""
    case InvalidType => c.name != "" && c.key != "" && c.typ !in {Last, Rate, Max, Sum, Percentile}
    case InvalidPercentile => c.name != "" && c.key != "" && c.typ == Percentile && !(0.0 < c.percentile <= 100.0)
    case DuplicateKey => ValidConfig(c) && exists i :: 0 <= i < |before| && before[i].key == c.key
    case _ =>
      && ValidConfig(c) && (forall i :: 0 <= i < |before| ==> before[i].key != c.key)
      && exists i :: 0 <= i < |before| && Clashes(before[i], c, e) && forall j :: 0 <= j < i ==> NoClash(before[j], c)
  }

  lemma CheckDuplicateIsClash(src: Config, target: Config)
    ensures match CheckDuplicate(src, target)
            case None => NoClash(src, target)
            case Some(e) => Clashes(src, target, e) && (e.DifferentTypes? || e.DuplicateConfig?)
  {
    if |src.labels| == |target.labels|
      && !exists k :: k in src.labels && (k !in target.labels || src.labels[k] != target.labels[k])
    {
      SameSizeSubmap(src.labels, target.labels);
    }
  }

  lemma {:induction false} FirstDuplicateJoins(a: seq<Config>, b: seq<Config>, c: Config)
    ensures FirstDuplicate(a + b, c) ==
              if FirstDuplicate(a, c).Some? then FirstDuplicate(a, c) else FirstDuplicate(b, c)
  {
    if a == [] {
      assert a + b == b;
    } else {
      assert (a + b)[1..] == a[1..] + b;
      FirstDuplicateJoins(a[1..], b, c);
    }
  }

  /** Looking at the configs of the same name only makes no difference. */
  lemma {:induction false} FirstDuplicateByName(cfgs: seq<Config>, c: Config)
    ensures FirstDuplicate(ByName(cfgs, c.name), c) == FirstDuplicate(cfgs, c)
  {
    if cfgs != [] {
      var init, last := cfgs[..|cfgs| - 1], cfgs[|cfgs| - 1];
      FirstDuplicateByName(init, c);
      FirstDuplicateJoins(init, [last], c);
      FirstDuplicateJoins(ByName(init, c.name), [last], c);
      assert cfgs == init + [last] && FirstDuplicate([last][1..], c) == None;
      assert ByName(init, c.name) + [] == ByName(init, c.name);
    }
  }

  lemma {:induction false} FirstDuplicateIsFirst(cfgs: seq<Config>, c: Config) returns (i: nat)
    requires FirstDuplicate(cfgs, c).Some?
    ensures i < |cfgs| && Clashes(cfgs[i], c, FirstDuplicate(cfgs, c).value)
    ensures FirstDuplicate(cfgs, c).value in {DifferentTypes, DuplicateConfig}
    ensures forall j :: 0 <= j < i ==> NoClash(cfgs[j], c)
  {
    hide Clashes, NoClash, CheckDuplicate;
    CheckDuplicateIsClash(cfgs[0], c);
    if CheckDuplicate(cfgs[0], c).Some? {
      i := 0;
    } else {
      var k := FirstDuplicateIsFirst(cfgs[1..], c);
      assert forall j :: 0 < j < |cfgs| ==> cfgs[j] == cfgs[1..][j - 1];
      i := k + 1;
    }
  }

  lemma ErrorIs(before: seq<Config>, c: Config)
    requires ErrorAfter(before, c).Some?
    ensures IsErrorOf(before, c, ErrorAfter(before, c).value)
  {
    hide ByName, FirstDuplicate, Clashes, NoClash;
    ValidateIsValidConfig(c);
    if ValidConfig(c) && !exists b :: b in before && b.key == c.key {
      FirstDuplicateByName(before, c);
      var i := FirstDuplicateIsFirst(before, c);
    }
  }

  // ---------------------------------------------------------------- validation

  datatype Indexes = Indexes(keyM: map<string, Config>, nameM: map<string, seq<Config>>)

  /** The error of the next config, read off the indexes. */
  lemma ErrorFromIndexes(before: seq<Config>, c: Config, keyM: map<string, Config>, nameM: map<string, seq<Config>>)
    requires IndexesList(before, keyM, nameM)
    ensures ErrorAfter(before, c) ==
              if Validate(c).Some? then Validate(c)
              else if c.key in keyM then Some(DuplicateKey)
              else if c.name in nameM then FirstDuplicate(nameM[c.name], c)
              else None
  {
  }

  lemma KeyIndexExtends(before: seq<Config>, c: Config, keyM: map<string, Config>)
    requires KeyIndex(before, keyM) && c.key !in keyM
    ensures KeyIndex(before + [c], keyM[c.key := c])
  {
  }

  lemma NameIndexExtends(before: seq<Config>, c: Config, nameM: map<string, seq<Config>>)
    requires NameIndex(before, nameM)
    ensures NameIndex(before + [c], nameM[c.name := (if c.name in nameM then nameM[c.name] else []) + [c]])
  {
  }

  method FindDuplicate(cfgs: seq<Config>, cfg: Config) returns (r: Option<ConfigError>)
    ensures r == FirstDuplicate(cfgs, cfg)
  {
    for i := 0 to |cfgs|
      invariant FirstDuplicate(cfgs, cfg) == FirstDuplicate(cfgs[i..], cfg)
    {
      var err := CheckDuplicate(cfgs[i], cfg);
      if err.Some? { return err; }
    }
    return None;
  }

  /** Accepts exactly the valid lists and then returns indexes of the list; otherwise reports the
      first error of the first config that cannot be added. */
  method ValidateAndGroup(src: seq<Config>) returns (r: Result<Indexes, ConfigError>)
    ensures r.Ok? <==> ValidList(src)
    ensures r.Ok? ==> IndexesList(src, r.value.keyM, r.value.nameM)
    ensures r.Err? ==> exists i :: 0 <= i < |src| && ValidList(src[..i]) &&
                                   ErrorAfter(src[..i], src[i]) == Some(r.error) && IsErrorOf(src[..i], src[i], r.error)
  {
    var keyM: map<string, Config> := map[];
    var nameM: map<string, seq<Config>> := map[];
    for i := 0 to |src|
      invariant ValidList(src[..i])
      invariant IndexesList(src[..i], keyM, nameM)
    {
      var cfg := src[i];
      hide ErrorAfter, KeyIndex, NameIndex, Validate, IsErrorOf;
      assert src[..i + 1] == src[..i] + [cfg];
      ErrorFromIndexes(src[..i], cfg, keyM, nameM);
      ValidListExtends(src[..i], cfg);
      if ValidList(src) { PrefixValid(src, i + 1); }
      if ErrorAfter(src[..i], cfg).Some? { ErrorIs(src[..i], cfg); }
      var invalid := Validate(cfg);
      if invalid.Some? { return Err(invalid.value); }
      if cfg.key in keyM { return Err(DuplicateKey); }
      if cfg.name in nameM {
        var duplicate := FindDuplicate(nameM[cfg.name], cfg);
        if duplicate.Some? { return Err(duplicate.value); }
      }
      ghost var previous := Indexes(keyM, nameM);
      var before := if cfg.name in nameM then nameM[cfg.name] else [];
      nameM := nameM[cfg.name := before + [cfg]];
      keyM := keyM[cfg.key := cfg];
      KeyIndexExtends(src[..i], cfg, previous.keyM);
      NameIndexExtends(src[..i], cfg, previous.nameM);
    }
    assert src[..|src|] == src;
    return Ok(Indexes(keyM, nameM));
  }

  lemma OccursOnce(a: seq<Config>, k: nat)
    requires k < |a| && ValidList(a)
    ensures multiset(a)[a[k]] == 1
  {
    assert a == a[..k] + [a[k]] + a[k + 1..];
    forall i | 0 <= i < |a| && i != k
      ensures a[i] != a[k]
    {
      assert if i < k then Compatible(a[i], a[k]) else Compatible(a[k], a[i]);
    }
    assert a[k] !in a[..k] && a[k] !in a[k + 1..];
  }

  lemma PermutedValid(a: seq<Config>, b: seq<Config>)
    requires multiset(a) == multiset(b) && ValidList(a)
    ensures ValidList(b)
  {
    forall i | 0 <= i < |b|
      ensures ValidConfig(b[i])
    {
      assert b[i] in multiset(a);
    }
    forall i, j | 0 <= i < j < |b|
      ensures Compatible(b[i], b[j])
    {
      assert b[i] in multiset(a) && b[j] in multiset(a);
      var k :| 0 <= k < |a| && a[k] == b[i];
      var l :| 0 <= l < |a| && a[l] == b[j];
      if k == l {
        RepeatedTwice(b, i, j);
        OccursOnce(a, k);
      } else if k < l {
        assert Compatible(a[k], a[l]);
      } else {
        assert Compatible(a[l], a[k]);
      }
    }
  }

  /** The verdict does not depend on the order of the list. */
  lemma VerdictIgnoresOrder(a: seq<Config>, b: seq<Config>)
    requires multiset(a) == multiset(b)
    ensures ValidList(a) <==> ValidList(b)
  {
    if ValidList(a) { PermutedValid(a, b); }
    if ValidList(b) { PermutedValid(b, a); }
  }

  // ---------------------------------------------------------------- attributes

  /** An attribute value: unset, or a value with its text form. */
  datatype Value = Empty | Present(text: string)

  function AsString(v: Value): string {
    match v
    case Empty => ""
    case Present(text) => text
  }

  datatype Attribute = Attribute(key: string, value: Value)

  /** An attribute map is a list of entries; a lookup takes the first entry with the key. */
  type Attributes = seq<Attribute>

  function Lookup(m: Attributes, key: string): Option<Value> {
    if m == [] then None
    else if m[0].key == key then Some(m[0].value)
    else Lookup(m[1..], key)
  }

  /** The value in the data point attributes, else in the resource attributes, else unset. */
  function GetValueFromMaps(key: string, attrs: Attributes, resAttrs: Attributes): Value {
    match Lookup(attrs, key)
    case Some(v) => v
    case None =>
      match Lookup(resAttrs, key)
      case Some(v) => v
      case None => Empty
  }

  ghost predicate HasKey(m: Attributes, key: string) {
    exists i :: 0 <= i < |m| && m[i].key == key
  }

  /** `v` is the value of the first entry with the key. */
  ghost predicate IsFirst(m: Attributes, key: string, v: Value) {
    exists i :: 0 <= i < |m| && m[i].key == key && m[i].value == v && !HasKey(m[..i], key)
  }

  /** By positions: the value of the first entry with the key among the attributes of the data point,
      else of the first among those of the resource, and unset if neither has the key. */
  ghost predicate IsValueOf(key: string, attrs: Attributes, resAttrs: Attributes, v: Value) {
    if HasKey(attrs, key) then IsFirst(attrs, key, v)
    else if HasKey(resAttrs, key) then IsFirst(resAttrs, key, v)
    else v == Empty
  }

  lemma KeyUnfolds(m: Attributes, key: string)
    requires m != []
    ensures HasKey(m, key) <==> m[0].key == key || HasKey(m[1..], key)
  {
    assert m == [m[0]] + m[1..];
  }

  lemma FirstHere(m: Attributes, key: string)
    requires m != [] && m[0].key == key
    ensures IsFirst(m, key, m[0].value)
  {
    assert m[..0] == [];
  }

  lemma FirstLater(m: Attributes, key: string, v: Value)
    requires m != [] && m[0].key != key && IsFirst(m[1..], key, v)
    ensures IsFirst(m, key, v)
  {
    var i :| 0 <= i < |m[1..]| && m[1..][i].key == key && m[1..][i].value == v && !HasKey(m[1..][..i], key);
    assert m[..i + 1][1..] == m[1..][..i];
    KeyUnfolds(m[..i + 1], key);
    assert m[i + 1] == m[1..][i];
  }

  lemma {:induction false} LookupFindsFirst(m: Attributes, key: string)
    ensures Lookup(m, key).Some? <==> HasKey(m, key)
    ensures Lookup(m, key).Some? ==> IsFirst(m, key, Lookup(m, key).value)
  {
    if m != [] {
      hide HasKey, IsFirst;
      LookupFindsFirst(m[1..], key);
      KeyUnfolds(m, key);
      if m[0].key == key {
        FirstHere(m, key);
      } else if HasKey(m[1..], key) {
        FirstLater(m, key, Lookup(m, key).value);
      }
    }
  }

  lemma NoKeyBefore(m: Attributes, key: string, n: nat)
    requires n <= |m| && !HasKey(m[..n], key)
    ensures forall i :: 0 <= i < n ==> m[i].key != key
  {
    assert forall i :: 0 <= i < n ==> m[..n][i] == m[i];
  }

  lemma FirstIsUnique(m: Attributes, key: string, v: Value, w: Value)
    requires IsFirst(m, key, v) && IsFirst(m, key, w)
    ensures v == w
  {
    var i :| 0 <= i < |m| && m[i].key == key && m[i].value == v && !HasKey(m[..i], key);
    var j :| 0 <= j < |m| && m[j].key == key && m[j].value == w && !HasKey(m[..j], key);
    NoKeyBefore(m, key, i);
    NoKeyBefore(m, key, j);
    assert i == j;
  }

  /** The attributes of the data point shadow those of the resource. */
  lemma LookupOrder(key: string, attrs: Attributes, resAttrs: Attributes, v: Value)
    ensures GetValueFromMaps(key, attrs, resAttrs) == v <==> IsValueOf(key, attrs, resAttrs, v)
  {
    hide Lookup, HasKey, IsFirst;
    LookupFindsFirst(attrs, key);
    LookupFindsFirst(resAttrs, key);
    var found := GetValueFromMaps(key, attrs, resAttrs);
    if IsFirst(attrs, key, v) && HasKey(attrs, key) { FirstIsUnique(attrs, key, v, found); }
    if IsFirst(resAttrs, key, v) && !HasKey(attrs, key) && HasKey(resAttrs, key) {
      FirstIsUnique(resAttrs, key, v, found);
    }
  }

  /** The group is the text of the attribute that the config groups by, and empty if there is none. */
  ghost predicate IsGroup(cfg: Config, attrs: Attributes, resAttrs: Attributes, group: string) {
    || IsValueOf(cfg.groupBy, attrs, resAttrs, Present(group))
    || (group == "" && IsValueOf(cfg.groupBy, attrs, resAttrs, Empty))
  }

  lemma GroupByPosition(cfg: Config, attrs: Attributes, resAttrs: Attributes, group: string)
    ensures AsString(GetValueFromMaps(cfg.groupBy, attrs, resAttrs)) == group <==>
            IsGroup(cfg, attrs, resAttrs, group)
  {
    hide GetValueFromMaps, IsValueOf;
    LookupOrder(cfg.groupBy, attrs, resAttrs, Present(group));
    LookupOrder(cfg.groupBy, attrs, resAttrs, Empty);
  }

  /** The program's match test, with its fast reject on the number of labels. */
  predicate IsEqualAttrs(cfg: Config, name: string, attrs: Attributes, resAttrs: Attributes) {
    && cfg.name == name
    && |cfg.labels| <= |attrs| + |resAttrs|
    && forall k :: k in cfg.labels ==>
         var v := GetValueFromMaps(k, attrs, resAttrs);
         v.Present? && cfg.labels[k] == AsString(v)
  }

  /** A plain match test: every label is set to the wanted text. */
  predicate Matches(cfg: Config, name: string, attrs: Attributes, resAttrs: Attributes) {
    && cfg.name == name
    && forall k :: k in cfg.labels ==> GetValueFromMaps(k, attrs, resAttrs) == Present(cfg.labels[k])
  }

  lemma UnionSize(a: set<string>, b: set<string>)
    ensures |a + b| <= |a| + |b|
  {
  }

  /** The metric has the configured name, and every label is an attribute with the wanted text. */
  ghost predicate IsWanted(cfg: Config, name: string, attrs: Attributes, resAttrs: Attributes) {
    && cfg.name == name
    && forall k :: k in cfg.labels ==> IsValueOf(k, attrs, resAttrs, Present(cfg.labels[k]))
  }

  lemma MatchesByPosition(cfg: Config, name: string, attrs: Attributes, resAttrs: Attributes)
    ensures Matches(cfg, name, attrs, resAttrs) <==> IsWanted(cfg, name, attrs, resAttrs)
  {
    hide GetValueFromMaps, IsValueOf;
    forall k | k in cfg.labels
      ensures GetValueFromMaps(k, attrs, resAttrs) == Present(cfg.labels[k]) <==>
                IsValueOf(k, attrs, resAttrs, Present(cfg.labels[k]))
    {
      LookupOrder(k, attrs, resAttrs, Present(cfg.labels[k]));
    }
  }

  function KeysOf(m: Attributes): (keys: set<string>)
    ensures forall k :: k in keys <==> Lookup(m, k).Some?
    ensures |keys| <= |m|
  {
    if m == [] then {} else
      var rest := KeysOf(m[1..]);
      UnionSize({m[0].key}, rest);
      {m[0].key} + rest
  }

  /** The fast reject only ever drops configs that do not match: labels that are all set are keys
      of one of the two attribute maps. */
  lemma FastRejectIsSound(cfg: Config, name: string, attrs: Attributes, resAttrs: Attributes)
    ensures IsEqualAttrs(cfg, name, attrs, resAttrs) <==> Matches(cfg, name, attrs, resAttrs)
  {
    if Matches(cfg, name, attrs, resAttrs) {
      var keys := KeysOf(attrs) + KeysOf(resAttrs);
      forall k | k in cfg.labels
        ensures k in keys
      {
        assert GetValueFromMaps(k, attrs, resAttrs).Present?;
      }
      assert cfg.labels.Keys <= keys;
      SubsetSize(cfg.labels.Keys, keys);
      UnionSize(KeysOf(attrs), KeysOf(resAttrs));
      assert |cfg.labels| == |cfg.labels.Keys|;
    }
  }

  // ---------------------------------------------------------------- the lookup

  /** A plain scan of the whole config list. */
  function Scan(cfgs: seq<Config>, name: string, attrs: Attributes, resAttrs: Attributes): (r: seq<Config>)
    ensures forall c :: c in r <==> c in cfgs && Matches(c, name, attrs, resAttrs)
  {
    if cfgs == [] then []
    else
      var init, last := cfgs[..|cfgs| - 1], cfgs[|cfgs| - 1];
      assert cfgs == init + [last];
      Scan(init, name, attrs, resAttrs) + (if Matches(last, name, attrs, resAttrs) then [last] else [])
  }

  /** Restricting the scan to the configs of one name loses nothing and keeps the order. */
  lemma {:induction false} ScanByName(cfgs: seq<Config>, name: string, attrs: Attributes, resAttrs: Attributes)
    ensures Scan(ByName(cfgs, name), name, attrs, resAttrs) == Scan(cfgs, name, attrs, resAttrs)
  {
    if cfgs != [] {
      var init, last := cfgs[..|cfgs| - 1], cfgs[|cfgs| - 1];
      ScanByName(init, name, attrs, resAttrs);
      var named := ByName(init, name);
      if last.name == name {
        assert (named + [last])[..|named|] == named;
      } else {
        assert named + [] == named;
      }
    }
  }

  lemma EmptyScan(name: string, attrs: Attributes, resAttrs: Attributes)
    ensures Scan([], name, attrs, resAttrs) == []
  {
  }

  lemma ScanExtends(cfgs: seq<Config>, i: nat, name: string, attrs: Attributes, resAttrs: Attributes)
    requires i < |cfgs|
    ensures Scan(cfgs[..i + 1], name, attrs, resAttrs)
         == Scan(cfgs[..i], name, attrs, resAttrs) + (if Matches(cfgs[i], name, attrs, resAttrs) then [cfgs[i]] else [])
  {
    hide Matches;
    assert cfgs[..i + 1][..i] == cfgs[..i] && cfgs[..i + 1][i] == cfgs[i];
  }

  /** The indexed lookup returns exactly what a scan of the whole list returns, in list order. */
  method FilterConfigs(ghost cfgs: seq<Config>, keyM: map<string, Config>, nameM: map<string, seq<Config>>,
                       name: string, attrs: Attributes, resAttrs: Attributes)
    returns (result: seq<Config>)
    requires IndexesList(cfgs, keyM, nameM)
    ensures result == Scan(cfgs, name, attrs, resAttrs)
    ensures forall c :: c in result <==> c in cfgs && IsWanted(c, name, attrs, resAttrs)
  {
    hide IsEqualAttrs, Matches, ByName, Scan, IsWanted;
    ScanByName(cfgs, name, attrs, resAttrs);
    EmptyScan(name, attrs, resAttrs);
    forall c
      ensures Matches(c, name, attrs, resAttrs) <==> IsWanted(c, name, attrs, resAttrs)
    {
      MatchesByPosition(c, name, attrs, resAttrs);
    }
    if name !in nameM { return []; }
    var named := nameM[name];
    result := [];
    for i := 0 to |named|
      invariant result == Scan(named[..i], name, attrs, resAttrs)
    {
      FastRejectIsSound(named[i], name, attrs, resAttrs);
      ScanExtends(named, i, name, attrs, resAttrs);
      if IsEqualAttrs(named[i], name, attrs, resAttrs) {
        result := result + [named[i]];
      }
    }
    assert named[..|named|] == named;
  }
}
