/**
 * The self-contained helpers of scanomatic/generics/abstract_model_factory.py: the key-path
 * string helpers of `SerializationHelper`, `filter_member_model` and `_get_trimmed_keys`, the
 * bounds check and clamping of model attributes, `update`, the pinning-format validators, and
 * the settings-migration edits `rename_setting` and `split_and_replace`.
 */
module ModelFactory {
  import opened Wrappers
  import opened PyValues
  import opened ModelRecord

  // ---------------------------------------------------------------------------------------
  // Key paths: get_str_from_path / get_path_from_str
  // ---------------------------------------------------------------------------------------

  predicate NoDot(s: string) {
    forall i :: 0 <= i < |s| ==> s[i] != '.'
  }

  /** `".".join(keyPath)`. */
  function GetStrFromPath(path: seq<string>): string {
    if |path| == 0 then ""
    else if |path| == 1 then path[0]
    else path[0] + "." + GetStrFromPath(path[1..])
  }

  /** `tuple(key.split("."))`: the pieces between the dots, at least one, none of which holds a dot. */
  function GetPathFromStr(key: string): (path: seq<string>)
    ensures |path| >= 1
    ensures forall i :: 0 <= i < |path| ==> NoDot(path[i])
  {
    if |key| == 0 then [""]
    else
      var rest := GetPathFromStr(key[1..]);
      if key[0] == '.' then [""] + rest
      else [[key[0]] + rest[0]] + rest[1..]
  }

  /** Joining the pieces of a split gives back the key, for every key. */
  lemma {:induction false} JoinOfSplit(key: string)
    ensures GetStrFromPath(GetPathFromStr(key)) == key
  {
    if |key| > 0 {
      JoinOfSplit(key[1..]);
      var rest := GetPathFromStr(key[1..]);
      if key[0] == '.' {
        assert GetPathFromStr(key) == [""] + rest;
        assert ([""] + rest)[1..] == rest;
      } else {
        var path := GetPathFromStr(key);
        assert path == [[key[0]] + rest[0]] + rest[1..];
        if |rest| > 1 {
          assert path[1..] == rest[1..];
        }
      }
    }
  }

  /** Splitting a dot-free prefix glued to a key extends the key's first piece. */
  lemma {:induction false} SplitAfterDotless(a: string, t: string)
    requires NoDot(a)
    ensures GetPathFromStr(a + t) == [a + GetPathFromStr(t)[0]] + GetPathFromStr(t)[1..]
  {
    if |a| > 0 {
      assert (a + t)[1..] == a[1..] + t;
      SplitAfterDotless(a[1..], t);
      assert [a[0]] + (a[1..] + GetPathFromStr(t)[0]) == a + GetPathFromStr(t)[0];
    } else {
      assert a + t == t;
      assert a + GetPathFromStr(t)[0] == GetPathFromStr(t)[0];
      assert [GetPathFromStr(t)[0]] + GetPathFromStr(t)[1..] == GetPathFromStr(t);
    }
  }

  /** Splitting the joined form of a non-empty path of dot-free names gives back the path. */
  lemma {:induction false} SplitOfJoin(path: seq<string>)
    requires |path| >= 1
    requires forall i :: 0 <= i < |path| ==> NoDot(path[i])
    ensures GetPathFromStr(GetStrFromPath(path)) == path
  {
    if |path| == 1 {
      SplitAfterDotless(path[0], "");
      assert path[0] + "" == path[0];
    } else {
      var tail := GetStrFromPath(path[1..]);
      SplitOfJoin(path[1..]);
      assert path[0] + "." + tail == path[0] + ("." + tail);
      SplitAfterDotless(path[0], "." + tail);
      assert ("." + tail)[1..] == tail;
      assert GetPathFromStr("." + tail) == [""] + path[1..];
      assert path[0] + "" == path[0];
    }
  }

  // ---------------------------------------------------------------------------------------
  // filter_member_model and _get_trimmed_keys
  // ---------------------------------------------------------------------------------------

  /**
   * The filter test of `filter_member_model`: every position the zip of filter and key covers
   * agrees, and the key is strictly longer than the filter.
   */
  function KeyMatches(keyFilter: seq<string>, key: seq<string>): (b: bool)
    ensures b <==> |key| > |keyFilter| && key[..|keyFilter|] == keyFilter
  {
    (forall j :: 0 <= j < |keyFilter| && j < |key| ==> keyFilter[j] == key[j]) && |key| > |keyFilter|
  }

  /**
   * `filter_member_model(key_filter, keys, *args)`: zips the keys with the companion values
   * (`rest`, one element per zipped tuple of `args`), keeps the entries whose key matches and
   * yields each key without the filter prefix beside its companions.
   */
  function FilterMemberModel<R(!new)>(keyFilter: seq<string>, keys: seq<seq<string>>, rest: seq<R>): (r: seq<(seq<string>, R)>)
    ensures |r| <= |keys| && |r| <= |rest|
    ensures forall e :: e in r <==>
      exists i :: 0 <= i < |keys| && i < |rest| && KeyMatches(keyFilter, keys[i]) &&
                  e == (keys[i][|keyFilter|..], rest[i])
  {
    if |keys| == 0 || |rest| == 0 then []
    else
      var tail := FilterMemberModel(keyFilter, keys[1..], rest[1..]);
      assert forall e :: e in tail <==>
        exists i :: 1 <= i < |keys| && i < |rest| && KeyMatches(keyFilter, keys[i]) &&
                    e == (keys[i][|keyFilter|..], rest[i]) by {
        forall e | e in tail
          ensures exists i :: 1 <= i < |keys| && i < |rest| && KeyMatches(keyFilter, keys[i]) &&
                              e == (keys[i][|keyFilter|..], rest[i])
        {
          var j :| 0 <= j < |keys[1..]| && j < |rest[1..]| && KeyMatches(keyFilter, keys[1..][j]) &&
                   e == (keys[1..][j][|keyFilter|..], rest[1..][j]);
          assert keys[j + 1] == keys[1..][j] && rest[j + 1] == rest[1..][j];
        }
        forall e, i | 1 <= i < |keys| && i < |rest| && KeyMatches(keyFilter, keys[i]) &&
                      e == (keys[i][|keyFilter|..], rest[i])
          ensures e in tail
        {
          assert keys[1..][i - 1] == keys[i] && rest[1..][i - 1] == rest[i];
        }
      }
      (if KeyMatches(keyFilter, keys[0]) then [(keys[0][|keyFilter|..], rest[0])] else []) + tail
  }

  /** Entries are yielded in input order: one more input entry adds at most one output entry, at the end. */
  lemma {:induction false} FilterMemberModelAppend<R(!new)>(keyFilter: seq<string>, keys: seq<seq<string>>, rest: seq<R>,
                                                      key: seq<string>, companion: R)
    requires |keys| == |rest|
    ensures FilterMemberModel(keyFilter, keys + [key], rest + [companion]) ==
      FilterMemberModel(keyFilter, keys, rest) +
      (if KeyMatches(keyFilter, key) then [(key[|keyFilter|..], companion)] else [])
  {
    if |keys| > 0 {
      assert (keys + [key])[1..] == keys[1..] + [key];
      assert (rest + [companion])[1..] == rest[1..] + [companion];
      FilterMemberModelAppend(keyFilter, keys[1..], rest[1..], key, companion);
    }
  }

  /** The keys of a filtered sequence. */
  function FilteredKeys<R>(entries: seq<(seq<string>, R)>): (ks: seq<seq<string>>)
    ensures |ks| == |entries| && forall i :: 0 <= i < |entries| ==> ks[i] == entries[i].0
  {
    seq(|entries|, i requires 0 <= i < |entries| => entries[i].0)
  }

  /** The companions of a filtered sequence. */
  function FilteredCompanions<R>(entries: seq<(seq<string>, R)>): (rs: seq<R>)
    ensures |rs| == |entries| && forall i :: 0 <= i < |entries| ==> rs[i] == entries[i].1
  {
    seq(|entries|, i requires 0 <= i < |entries| => entries[i].1)
  }

  /** A key matches the filters one after the other exactly when it matches their concatenation. */
  lemma KeyMatchesConcat(f1: seq<string>, f2: seq<string>, key: seq<string>)
    ensures KeyMatches(f1, key) && KeyMatches(f2, key[|f1|..]) <==> KeyMatches(f1 + f2, key)
  {
    if KeyMatches(f1 + f2, key) {
      assert key[..|f1|] == (f1 + f2)[..|f1|] == f1;
      assert key[|f1|..][..|f2|] == key[|f1|..|f1| + |f2|] == (f1 + f2)[|f1|..] == f2;
    }
    if KeyMatches(f1, key) && KeyMatches(f2, key[|f1|..]) {
      assert key[..|f1| + |f2|] == key[..|f1|] + key[|f1|..][..|f2|];
    }
  }

  /**
   * Filtering the filtered entries again, as the parsing of a sub-model does, is one filtering by
   * the concatenated prefix.
   */
  lemma {:induction false} FilterMemberModelNested<R(!new)>(f1: seq<string>, f2: seq<string>, keys: seq<seq<string>>, rest: seq<R>)
    ensures var inner := FilterMemberModel(f1, keys, rest);
      FilterMemberModel(f2, FilteredKeys(inner), FilteredCompanions(inner)) == FilterMemberModel(f1 + f2, keys, rest)
  {
    var inner := FilterMemberModel(f1, keys, rest);
    if |keys| > 0 && |rest| > 0 {
      var tail := FilterMemberModel(f1, keys[1..], rest[1..]);
      FilterMemberModelNested(f1, f2, keys[1..], rest[1..]);
      KeyMatchesConcat(f1, f2, keys[0]);
      if KeyMatches(f1, keys[0]) {
        assert inner == [(keys[0][|f1|..], rest[0])] + tail;
        assert FilteredKeys(inner)[1..] == FilteredKeys(tail);
        assert FilteredCompanions(inner)[1..] == FilteredCompanions(tail);
        if KeyMatches(f1 + f2, keys[0]) {
          assert keys[0][|f1|..][|f2|..] == keys[0][|f1 + f2|..];
        }
      } else {
        assert inner == tail;
      }
    }
  }

  /** Python's `s[n:]` for a non-negative n: empty once n passes the end. */
  function SliceFrom(s: string, n: nat): string {
    if n <= |s| then s[n..] else ""
  }

  /**
   * `_get_trimmed_keys(keys, prefix)`: each key without its first len(prefix) + 1 characters;
   * a key of the form prefix + "." + rest becomes rest.
   */
  function TrimmedKeys(keys: seq<string>, prefix: string): (r: seq<string>)
    ensures |r| == |keys|
    ensures forall i :: 0 <= i < |keys| && |keys[i]| > |prefix| && keys[i][..|prefix| + 1] == prefix + "." ==>
      prefix + "." + r[i] == keys[i]
    ensures forall i :: 0 <= i < |keys| && |keys[i]| <= |prefix| + 1 ==> r[i] == ""
  {
    seq(|keys|, i requires 0 <= i < |keys| => SliceFrom(keys[i], |prefix| + 1))
  }

  /** Trimming a joined key path by its first name leaves the joined rest of the path. */
  lemma TrimmedKeyOfPath(head: string, path: seq<string>)
    requires |path| >= 1
    ensures TrimmedKeys([GetStrFromPath([head] + path)], head) == [GetStrFromPath(path)]
  {
    assert ([head] + path)[1..] == path;
    assert GetStrFromPath([head] + path) == head + "." + GetStrFromPath(path);
  }

  // ---------------------------------------------------------------------------------------
  // _in_bounds and _clamp
  // ---------------------------------------------------------------------------------------

  /** `_in_bounds` for one attribute value and its bounds (None: no bound). */
  function InBounds(val: real, minVal: Option<real>, maxVal: Option<real>): (b: bool)
    ensures b <==> (minVal.None? || minVal.value <= val) && (maxVal.None? || val <= maxVal.value)
  {
    if minVal.Some? && val < minVal.value then false
    else if maxVal.Some? && val > maxVal.value then false
    else true
  }

  /** The value `_clamp` leaves in one attribute. */
  function ClampValue(val: real, minVal: Option<real>, maxVal: Option<real>): real {
    if minVal.Some? && val < minVal.value then minVal.value
    else if maxVal.Some? && val > maxVal.value then maxVal.value
    else val
  }

  predicate Ordered(minVal: Option<real>, maxVal: Option<real>) {
    minVal.None? || maxVal.None? || minVal.value <= maxVal.value
  }

  /** A value already in bounds is left as it is. */
  lemma ClampKeepsInBounds(val: real, minVal: Option<real>, maxVal: Option<real>)
    requires InBounds(val, minVal, maxVal)
    ensures ClampValue(val, minVal, maxVal) == val
  {
  }

  /**
   * Below the minimum a value becomes the minimum, otherwise above the maximum it becomes the
   * maximum; with ordered bounds the result is in bounds and clamping again changes nothing.
   */
  lemma ClampResult(val: real, minVal: Option<real>, maxVal: Option<real>)
    ensures minVal.Some? && val < minVal.value ==> ClampValue(val, minVal, maxVal) == minVal.value
    ensures !(minVal.Some? && val < minVal.value) && maxVal.Some? && val > maxVal.value ==>
      ClampValue(val, minVal, maxVal) == maxVal.value
    ensures Ordered(minVal, maxVal) ==> InBounds(ClampValue(val, minVal, maxVal), minVal, maxVal)
    ensures Ordered(minVal, maxVal) ==>
      ClampValue(ClampValue(val, minVal, maxVal), minVal, maxVal) == ClampValue(val, minVal, maxVal)
  {
  }

  /**
   * `_clamp(model, min_model, max_model)`: each public attribute below its minimum becomes the
   * minimum, otherwise above its maximum becomes the maximum, through `setattr`. Every model is
   * one built by `__init__`, and the bound models hold every attribute of the model.
   */
  method Clamp(model: Model<real>, minModel: Model<Option<real>>, maxModel: Model<Option<real>>)
    requires model.initFlag == Some(true)
    requires forall a :: a in model.Iter() ==> a in minModel.dict && a in maxModel.dict
    modifies model
    ensures model.dict.Keys == old(model.dict).Keys && model.initFlag == old(model.initFlag)
    ensures forall a :: a in model.dict ==>
      model.dict[a] == if StartsWithUnderscore(a) then old(model.dict)[a]
                       else ClampValue(old(model.dict)[a], minModel.dict[a], maxModel.dict[a])
  {
    var todo := model.Iter().Keys;
    while todo != {}
      invariant todo <= old(model.Iter().Keys)
      invariant model.initFlag == Some(true) && model.dict.Keys == old(model.dict).Keys
      invariant forall a :: a in model.dict ==>
        model.dict[a] == if StartsWithUnderscore(a) || a in todo then old(model.dict)[a]
                         else ClampValue(old(model.dict)[a], minModel.dict[a], maxModel.dict[a])
      decreases |todo|
    {
      var attr :| attr in todo;
      var val := model.dict[attr];
      var minVal := minModel.dict[attr];
      var maxVal := maxModel.dict[attr];
      if minVal.Some? && val < minVal.value {
        var _ := model.SetAttr(attr, minVal.value);
      } else if maxVal.Some? && val > maxVal.value {
        var _ := model.SetAttr(attr, maxVal.value);
      }
      todo := todo - {attr};
    }
  }

  // ---------------------------------------------------------------------------------------
  // update
  // ---------------------------------------------------------------------------------------

  /**
   * `parameter in model` as written: Python's `in` walks `__iter__` and compares the name with
   * each (attribute, value) pair it yields.
   */
  predicate InIterationAsWritten(parameter: string, items: map<string, Value>) {
    exists a :: a in items && PyTuple([PyStr(a), items[a]]) == PyStr(parameter)
  }

  /** The model's attributes after `update` as intended: every setting that names a public attribute is set. */
  ghost function Updated(d: map<string, Value>, settings: map<string, Value>): (r: map<string, Value>)
    ensures r.Keys == d.Keys
    ensures forall a :: a in r ==> r[a] == if a in settings && !StartsWithUnderscore(a) then settings[a] else d[a]
  {
    map a | a in d :: if a in settings && !StartsWithUnderscore(a) then settings[a] else d[a]
  }

  /**
   * `update(model, **settings)` as written: the membership test never holds, since a name is
   * never equal to a pair, so no attribute is ever set.
   */
  method UpdateAsWritten(model: Model<Value>, settings: map<string, Value>)
    modifies model
    ensures model.dict == old(model.dict) && model.initFlag == old(model.initFlag)
  {
    var todo := settings.Keys;
    while todo != {}
      invariant model.dict == old(model.dict) && model.initFlag == old(model.initFlag)
      decreases |todo|
    {
      var parameter :| parameter in todo;
      if InIterationAsWritten(parameter, model.Iter()) {
        // setattr(model, parameter, value) is never reached.
        assert false;
      }
      todo := todo - {parameter};
    }
  }

  /** A model with attribute "x" and the setting x=1: the test fails, yet x is a public attribute that update should set. */
  lemma UpdateAsWrittenIgnoresSettings()
    ensures var d := map["x" := PyInt(0)];
      var settings := map["x" := PyInt(1)];
      !InIterationAsWritten("x", d) && "x" in d && Updated(d, settings) != d
  {
    var d := map["x" := PyInt(0)];
    assert Updated(d, map["x" := PyInt(1)])["x"] == PyInt(1);
  }

  /** `update` as intended: the test is membership among the names `__iter__` yields. */
  method Update(model: Model<Value>, settings: map<string, Value>)
    requires model.initFlag == Some(true)
    modifies model
    ensures model.dict == Updated(old(model.dict), settings) && model.initFlag == old(model.initFlag)
  {
    var todo := settings.Keys;
    while todo != {}
      invariant todo <= settings.Keys
      invariant model.initFlag == Some(true) && model.dict.Keys == old(model.dict).Keys
      invariant forall a :: a in model.dict ==>
        model.dict[a] == if a in settings && a !in todo && !StartsWithUnderscore(a) then settings[a] else old(model.dict)[a]
      decreases |todo|
    {
      var parameter :| parameter in todo;
      if parameter in model.Iter() {
        var _ := model.SetAttr(parameter, settings[parameter]);
      }
      todo := todo - {parameter};
    }
    assert model.dict == Updated(old(model.dict), settings);
  }

  // ---------------------------------------------------------------------------------------
  // _is_pinning_format(s)
  // ---------------------------------------------------------------------------------------

  /** `isinstance(val, int) and val > 0`. */
  predicate PositiveInt(v: Value) {
    IsIntInstance(v) && IntValue(v) > 0
  }

  /**
   * `_is_pinning_format`: `all` positive ints over the value's elements and a length of two;
   * False where iterating raises. A string is never one: its elements are strings.
   */
  function IsPinningFormat(v: Value): (b: bool)
    ensures b <==> (v.PyTuple? || v.PyList?) && |v.items| == 2 && PositiveInt(v.items[0]) && PositiveInt(v.items[1])
  {
    match Elements(v)
    case None => false
    case Some(es) => (forall i :: 0 <= i < |es| ==> PositiveInt(es[i])) && Len(v) == Some(2)
  }

  /**
   * `_is_pinning_formats`: every element is None or a pinning format; False where iterating
   * raises. The empty string passes, as it has no elements.
   */
  function IsPinningFormats(v: Value): (b: bool)
    ensures b <==> (v == PyStr("") ||
      ((v.PyTuple? || v.PyList?) && forall i :: 0 <= i < |v.items| ==> v.items[i] == PyNone || IsPinningFormat(v.items[i])))
  {
    match Elements(v)
    case None => false
    case Some(es) =>
      var r := forall i :: 0 <= i < |es| ==> es[i] == PyNone || IsPinningFormat(es[i]);
      assert v.PyStr? && |v.s| > 0 ==> !IsPinningFormat(es[0]);
      r
  }

  // ---------------------------------------------------------------------------------------
  // rename_setting and split_and_replace
  // ---------------------------------------------------------------------------------------

  /** A `str.format` pattern with one replacement field: the text before and after it. */
  datatype Pattern = Pattern(before: string, after: string) {
    function Format(name: string): string {
      before + name + after
    }
  }

  /** The settings dictionary the migration helpers edit in place. */
  class Settings {
    var entries: map<string, Value>

    constructor (entries: map<string, Value>)
      ensures this.entries == entries
    {
      this.entries := entries;
    }

    /**
     * `rename_setting(settings, old_name, new_name)`: afterwards old_name is absent; new_name
     * holds the old value unless it was present already, in which case it keeps its own; no
     * other key changes.
     */
    method RenameSetting(oldName: string, newName: string)
      modifies this
      ensures oldName !in old(entries) ==> entries == old(entries)
      ensures oldName in old(entries) ==> oldName !in entries
      ensures oldName in old(entries) && newName != oldName ==>
        newName in entries &&
        entries[newName] == if newName in old(entries) then old(entries)[newName] else old(entries)[oldName]
      ensures forall k :: k != oldName && k != newName ==> (k in entries <==> k in old(entries))
      ensures forall k :: k != oldName && k != newName && k in entries ==> entries[k] == old(entries)[k]
    {
      if oldName in entries {
        if newName !in entries {
          entries := entries[newName := entries[oldName]];
        }
        entries := entries - {oldName};
      }
    }

    /**
     * `split_and_replace(settings, key, pattern, names)`: when key is present, for each index
     * i the key `pattern.format(names[i])` gets `settings[key][i]`, skipping an index past the
     * end and a value that cannot be indexed; then key is deleted.
     */
    method SplitAndReplace(key: string, pattern: Pattern, names: seq<string>)
      modifies this
      ensures key !in old(entries) ==> entries == old(entries)
      ensures key in old(entries) ==> entries == SplitInto(old(entries), key, pattern, names) - {key}
    {
      if key in entries {
        var index := 0;
        while index < |names|
          invariant 0 <= index <= |names|
          invariant key in entries
          invariant entries == SplitInto(old(entries), key, pattern, names[..index])
        {
          assert names[..index + 1][..index] == names[..index];
          match Index(entries[key], index) {
            case Item(v) => entries := entries[pattern.Format(names[index]) := v];
            case _ =>
          }
          index := index + 1;
        }
        assert names[..index] == names;
        entries := entries - {key};
      }
    }
  }

  /** The dictionary after the loop of `split_and_replace` over `names`, before key is deleted. */
  function SplitInto(entries: map<string, Value>, key: string, pattern: Pattern, names: seq<string>): (r: map<string, Value>)
    requires key in entries
    ensures key in r
  {
    if |names| == 0 then entries
    else
      var prev := SplitInto(entries, key, pattern, names[..|names| - 1]);
      match Index(prev[key], |names| - 1)
      case Item(v) => prev[pattern.Format(names[|names| - 1]) := v]
      case _ => prev
  }

  /** No formatted name collides with the key being split. */
  predicate KeepsKey(key: string, pattern: Pattern, names: seq<string>) {
    forall i :: 0 <= i < |names| ==> pattern.Format(names[i]) != key
  }

  /** Distinct names format to distinct keys. */
  lemma FormatInjective(pattern: Pattern, a: string, b: string)
    requires a != b
    ensures pattern.Format(a) != pattern.Format(b)
  {
    assert (pattern.before + a + pattern.after)[|pattern.before|..|pattern.before| + |a|] == a;
    assert (pattern.before + b + pattern.after)[|pattern.before|..|pattern.before| + |b|] == b;
  }

  /** The loop never overwrites key itself when no formatted name is key. */
  lemma {:induction false} SplitIntoKeepsKey(entries: map<string, Value>, key: string, pattern: Pattern, names: seq<string>)
    requires key in entries && KeepsKey(key, pattern, names)
    ensures SplitInto(entries, key, pattern, names)[key] == entries[key]
  {
    if |names| > 0 {
      var n := |names| - 1;
      assert KeepsKey(key, pattern, names[..n]) by {
        forall i | 0 <= i < n ensures pattern.Format(names[..n][i]) != key {
          assert names[..n][i] == names[i];
        }
      }
      SplitIntoKeepsKey(entries, key, pattern, names[..n]);
    }
  }

  /** Each name whose index the value has ends up holding that element. */
  lemma {:induction false} SplitIntoSets(entries: map<string, Value>, key: string, pattern: Pattern, names: seq<string>, i: nat)
    requires key in entries && KeepsKey(key, pattern, names)
    requires forall i, j :: 0 <= i < j < |names| ==> names[i] != names[j]
    requires i < |names| && Index(entries[key], i).Item?
    ensures var r := SplitInto(entries, key, pattern, names);
      pattern.Format(names[i]) in r && r[pattern.Format(names[i])] == Index(entries[key], i).value
  {
    var n := |names| - 1;
    var init := names[..n];
    SplitIntoKeepsKey(entries, key, pattern, names);
    if i < n {
      assert KeepsKey(key, pattern, init) by {
        forall j | 0 <= j < n ensures pattern.Format(init[j]) != key {
          assert init[j] == names[j];
        }
      }
      SplitIntoKeepsKey(entries, key, pattern, init);
      assert init[i] == names[i];
      SplitIntoSets(entries, key, pattern, init, i);
      FormatInjective(pattern, names[i], names[n]);
    } else {
      assert KeepsKey(key, pattern, init) by {
        forall j | 0 <= j < n ensures pattern.Format(init[j]) != key {
          assert init[j] == names[j];
        }
      }
      SplitIntoKeepsKey(entries, key, pattern, init);
    }
  }

  /** A key that is no formatted name of an element keeps its entry, or its absence. */
  lemma {:induction false} SplitIntoOthers(entries: map<string, Value>, key: string, pattern: Pattern, names: seq<string>, k: string)
    requires key in entries && KeepsKey(key, pattern, names)
    requires forall i :: 0 <= i < |names| && Index(entries[key], i).Item? ==> k != pattern.Format(names[i])
    ensures var r := SplitInto(entries, key, pattern, names);
      (k in r <==> k in entries) && (k in r ==> r[k] == entries[k])
  {
    if |names| > 0 {
      var n := |names| - 1;
      var init := names[..n];
      assert KeepsKey(key, pattern, init) by {
        forall j | 0 <= j < n ensures pattern.Format(init[j]) != key {
          assert init[j] == names[j];
        }
      }
      forall i | 0 <= i < n && Index(entries[key], i).Item? ensures k != pattern.Format(init[i]) {
        assert init[i] == names[i];
      }
      SplitIntoOthers(entries, key, pattern, init, k);
      SplitIntoKeepsKey(entries, key, pattern, init);
    }
  }

  /**
   * When no formatted name is the key itself and the names are distinct, each name whose index
   * the value has maps to that element, and every other key keeps its entry.
   */
  lemma SplitIntoSpec(entries: map<string, Value>, key: string, pattern: Pattern, names: seq<string>)
    requires key in entries && KeepsKey(key, pattern, names)
    requires forall i, j :: 0 <= i < j < |names| ==> names[i] != names[j]
    ensures var r := SplitInto(entries, key, pattern, names);
      r[key] == entries[key] &&
      (forall i :: 0 <= i < |names| && Index(entries[key], i).Item? ==>
         pattern.Format(names[i]) in r && r[pattern.Format(names[i])] == Index(entries[key], i).value) &&
      (forall k :: (forall i :: 0 <= i < |names| && Index(entries[key], i).Item? ==> k != pattern.Format(names[i])) ==>
         (k in r <==> k in entries) && (k in r ==> r[k] == entries[k]))
  {
    SplitIntoKeepsKey(entries, key, pattern, names);
    forall i | 0 <= i < |names| && Index(entries[key], i).Item?
      ensures var r := SplitInto(entries, key, pattern, names);
        pattern.Format(names[i]) in r && r[pattern.Format(names[i])] == Index(entries[key], i).value
    {
      SplitIntoSets(entries, key, pattern, names, i);
    }
    forall k | (forall i :: 0 <= i < |names| && Index(entries[key], i).Item? ==> k != pattern.Format(names[i]))
      ensures var r := SplitInto(entries, key, pattern, names);
        (k in r <==> k in entries) && (k in r ==> r[k] == entries[k])
    {
      SplitIntoOthers(entries, key, pattern, names, k);
    }
  }
}
