/**
 * scanomatic/ui_server/general.py: the directory-name safety check and the JSON response
 * helpers that strip empty exits. The exit list and the data dictionary are objects the helpers
 * change in place.
 */
module UiGeneral {
  import opened Wrappers
  import opened PyValues

  // ---------------------------------------------------------------------------------------
  // safe_directory_name
  // ---------------------------------------------------------------------------------------

  /** A character of the class `[A-Za-z_0-9./]`. */
  predicate SafeChar(c: char) {
    ('A' <= c <= 'Z') || ('a' <= c <= 'z') || c == '_' || ('0' <= c <= '9') || c == '.' || c == '/'
  }

  predicate AllSafe(s: string) {
    forall i :: 0 <= i < |s| ==> SafeChar(s[i])
  }

  /** "../" occurs in s. */
  ghost predicate ClimbsUp(s: string) {
    exists i :: UpAt(s, i)
  }

  /** "../" starts at position i. */
  predicate UpAt(s: string, i: int) {
    0 <= i && i + 3 <= |s| && s[i..i + 3] == "../"
  }

  /** The end of the run of safe characters that starts at `from`. */
  function SafeRunEnd(s: string, from: nat): (r: nat)
    requires from <= |s|
    ensures from <= r <= |s| && AllSafe(s[from..r])
    ensures r < |s| ==> !SafeChar(s[r])
    decreases |s| - from
  {
    if from == |s| || !SafeChar(s[from]) then from
    else
      var r := SafeRunEnd(s, from + 1);
      assert forall i :: from + 1 <= i < r ==> s[from + 1..r][i - from - 1] == s[i];
      assert forall i :: from <= i < r ==> s[from..r][i - from] == s[i];
      r
  }

  /**
   * `_safe_dir.match(name)`, for `^[A-Za-z_0-9./]*$`: the greedy run of safe characters must
   * reach the end, or stop just before a final newline, where Python's `$` also matches.
   */
  function SafeDirMatch(s: string): (b: bool)
    ensures b <==> AllSafe(s) || (|s| > 0 && s[|s| - 1] == '\n' && AllSafe(s[..|s| - 1]))
  {
    var p := SafeRunEnd(s, 0);
    assert s[0..p] == s[..p];
    assert forall i :: 0 <= i < |s| - 1 ==> s[..|s| - 1][i] == s[i];
    p == |s| || (p == |s| - 1 && s[p] == '\n')
  }

  /** `/?\.{2}/` matches at position i. */
  predicate SuperAt(s: string, i: nat) {
    (i + 4 <= |s| && s[i..i + 4] == "/../") || (i + 3 <= |s| && s[i..i + 3] == "../")
  }

  /** `_no_super.search(s)` from `from` on: the pattern matches at some position. */
  function SearchSuper(s: string, from: nat): (b: bool)
    requires from <= |s|
    ensures b <==> exists i :: from <= i && UpAt(s, i)
    decreases |s| - from
  {
    if SuperAt(s, from) then
      assert from + 4 <= |s| && s[from..from + 4] == "/../" ==> s[from + 1..from + 4] == "../";
      assert UpAt(s, from) || UpAt(s, from + 1);
      true
    else if from == |s| then false
    else SearchSuper(s, from + 1)
  }

  /**
   * `safe_directory_name(name)`: only safe characters (a final newline aside) and no "../".
   * A trailing ".." without a slash passes.
   */
  function SafeDirectoryName(name: string): (b: bool)
    ensures b <==> (AllSafe(name) || (|name| > 0 && name[|name| - 1] == '\n' && AllSafe(name[..|name| - 1]))) &&
                   !ClimbsUp(name)
  {
    SafeDirMatch(name) && !SearchSuper(name, 0)
  }

  /** A path ending in ".." passes, one that climbs up does not, and one final newline is let through. */
  lemma SafeDirectoryNameExamples()
    ensures SafeDirectoryName("data/..")
    ensures !SafeDirectoryName("data/../etc")
    ensures SafeDirectoryName("data\n")
  {
    var climb := "data/../etc";
    assert UpAt(climb, 5);
    var up := "data/..";
    assert !ClimbsUp(up) by {
      forall i | 0 <= i && i + 3 <= |up|
        ensures !UpAt(up, i)
      {
        assert up[i..i + 3][0] == up[i] && up[i..i + 3][2] == up[i + 2];
      }
    }
    var nl := "data\n";
    assert nl[..4] == "data";
    assert !ClimbsUp(nl) by {
      forall i | 0 <= i && i + 3 <= |nl|
        ensures !UpAt(nl, i)
      {
        assert nl[i..i + 3][0] == nl[i];
      }
    }
  }

  // ---------------------------------------------------------------------------------------
  // strip_empty_exits and json_response
  // ---------------------------------------------------------------------------------------

  /** The list of exit keys. */
  class ExitList {
    var items: seq<string>

    constructor (items: seq<string>)
      ensures this.items == items
    {
      this.items := items;
    }
  }

  /** The response data dictionary. */
  class DataDict {
    var entries: map<string, Value>

    constructor (entries: map<string, Value>)
      ensures this.entries == entries
    {
      this.entries := entries;
    }
  }

  /** An exit whose data entry is present and empty. */
  predicate EmptyExit(e: string, data: map<string, Value>) {
    e in data && Len(data[e]) == Some(0)
  }

  /** An exit that survives: present in the data with a non-empty value. */
  predicate KeptExit(e: string, data: map<string, Value>) {
    e in data && Len(data[e]) != Some(0)
  }

  /** The exits that survive, in their order. */
  function Survivors(exits: seq<string>, data: map<string, Value>): (r: seq<string>)
    ensures forall e :: e in r <==> e in exits && KeptExit(e, data)
    ensures |r| <= |exits|
  {
    if |exits| == 0 then []
    else Survivors(exits[..|exits| - 1], data) +
         (if KeptExit(exits[|exits| - 1], data) then [exits[|exits| - 1]] else [])
  }

  /** The data keys `strip_empty_exits` deletes: exits with an empty value. */
  function EmptiedExits(exits: seq<string>, data: map<string, Value>): (r: set<string>)
    ensures forall e :: e in r <==> e in exits && EmptyExit(e, data)
  {
    if |exits| == 0 then {}
    else EmptiedExits(exits[..|exits| - 1], data) +
         (if EmptyExit(exits[|exits| - 1], data) then {exits[|exits| - 1]} else {})
  }

  /** `list.remove(e)`: without the first occurrence of e. */
  function RemoveFirst(s: seq<string>, e: string): (r: seq<string>)
    ensures e in s ==> |r| == |s| - 1
    ensures e !in s ==> r == s
  {
    if |s| == 0 then []
    else if s[0] == e then s[1..]
    else [s[0]] + RemoveFirst(s[1..], e)
  }

  /** Removing an element that the prefix lacks removes the occurrence right after the prefix. */
  lemma {:induction false} RemoveFirstAfter(prefix: seq<string>, e: string, rest: seq<string>)
    requires e !in prefix
    ensures RemoveFirst(prefix + [e] + rest, e) == prefix + rest
  {
    if |prefix| > 0 {
      var s := prefix + [e] + rest;
      assert s[0] == prefix[0] != e;
      assert s[1..] == prefix[1..] + [e] + rest;
      RemoveFirstAfter(prefix[1..], e, rest);
      assert RemoveFirst(s, e) == [prefix[0]] + (prefix[1..] + rest);
      assert [prefix[0]] + (prefix[1..] + rest) == prefix + rest;
    } else {
      assert prefix + [e] + rest == [e] + rest;
    }
  }

  /** One step of `strip_empty_exits` on the exits, for a surviving exit: the list stays as it is. */
  lemma StripStepKeeps(all: seq<string>, k: nat, d0: map<string, Value>)
    requires k < |all| && KeptExit(all[k], d0)
    ensures Survivors(all[..k + 1], d0) + all[k + 1..] == Survivors(all[..k], d0) + all[k..]
  {
    assert all[..k + 1][..k] == all[..k];
    assert all[k..] == [all[k]] + all[k + 1..];
    assert Survivors(all[..k + 1], d0) == Survivors(all[..k], d0) + [all[k]];
  }

  /** One step of `strip_empty_exits` on the exits, for a dropped exit: removing its first occurrence drops just it. */
  lemma StripStepDrops(all: seq<string>, k: nat, d0: map<string, Value>)
    requires k < |all| && !KeptExit(all[k], d0)
    ensures RemoveFirst(Survivors(all[..k], d0) + all[k..], all[k]) == Survivors(all[..k + 1], d0) + all[k + 1..]
  {
    var prefix := Survivors(all[..k], d0);
    assert all[..k + 1][..k] == all[..k];
    assert Survivors(all[..k + 1], d0) == prefix;
    RemoveFirstAfter(prefix, all[k], all[k + 1..]);
    assert all[k..] == [all[k]] + all[k + 1..];
    assert prefix + all[k..] == prefix + [all[k]] + all[k + 1..];
  }

  /**
   * One step of `strip_empty_exits` on the data: the data left so far decides the exit as the
   * original data does, and only an empty exit joins the deleted keys.
   */
  lemma StripStepData(all: seq<string>, k: nat, d0: map<string, Value>)
    requires k < |all|
    ensures var e := all[k];
      var emptied := EmptiedExits(all[..k], d0);
      (e in d0 && e !in emptied && Len(d0[e]) == Some(0) <==> EmptyExit(e, d0) && e !in emptied) &&
      (KeptExit(e, d0) ==> e !in emptied) &&
      EmptiedExits(all[..k + 1], d0) == emptied + (if EmptyExit(e, d0) then {e} else {})
  {
    assert all[..k + 1][..k] == all[..k];
  }

  /** The effect of the loop body of `strip_empty_exits` for the exit e on the data. */
  ghost predicate StripsEntry(e: string, entries: map<string, Value>, entries': map<string, Value>) {
    entries' == if e in entries && Len(entries[e]) == Some(0) then entries - {e} else entries
  }

  /** The effect of the loop body of `strip_empty_exits` for the exit e on the exits. */
  ghost predicate StripsItem(e: string, items: seq<string>, entries: map<string, Value>, items': seq<string>) {
    items' == if e in entries && Len(entries[e]) != Some(0) then items else RemoveFirst(items, e)
  }

  /** The loop body of `strip_empty_exits` keeps its invariant on the exits: the survivors so far, then the rest. */
  lemma StripItemsInvariant(all: seq<string>, k: nat, d0: map<string, Value>, items: seq<string>,
                            entries: map<string, Value>, items': seq<string>)
    requires k < |all|
    requires items == Survivors(all[..k], d0) + all[k..]
    requires entries == d0 - EmptiedExits(all[..k], d0)
    requires StripsItem(all[k], items, entries, items')
    ensures items' == Survivors(all[..k + 1], d0) + all[k + 1..]
  {
    StripStepData(all, k, d0);
    if KeptExit(all[k], d0) {
      StripStepKeeps(all, k, d0);
    } else {
      StripStepDrops(all, k, d0);
    }
  }

  /** The loop body of `strip_empty_exits` keeps its invariant on the data: the emptied exits so far are deleted. */
  lemma StripEntriesInvariant(all: seq<string>, k: nat, d0: map<string, Value>,
                              entries: map<string, Value>, entries': map<string, Value>)
    requires k < |all|
    requires entries == d0 - EmptiedExits(all[..k], d0)
    requires StripsEntry(all[k], entries, entries')
    ensures entries' == d0 - EmptiedExits(all[..k + 1], d0)
  {
    var e := all[k];
    var emptied := EmptiedExits(all[..k], d0);
    StripStepData(all, k, d0);
    if EmptyExit(e, d0) && e !in emptied {
      assert d0 - (emptied + {e}) == entries - {e};
    } else if EmptyExit(e, d0) {
      assert emptied + {e} == emptied;
    }
  }

  /** The body of the loop of `strip_empty_exits` for the exit e, once `len(data[e])` has not raised. */
  method StripExit(exits: ExitList, data: DataDict, e: string)
    requires e in data.entries ==> Len(data.entries[e]).Some?
    modifies exits, data
    ensures StripsEntry(e, old(data.entries), data.entries)
    ensures StripsItem(e, old(exits.items), old(data.entries), exits.items)
  {
    if e in data.entries && Len(data.entries[e]) == Some(0) {
      data.entries := data.entries - {e};
      exits.items := RemoveFirst(exits.items, e);
    } else if e !in data.entries {
      exits.items := RemoveFirst(exits.items, e);
    }
  }

  /**
   * The position of the first exit of the walk whose value in the data has no length, where
   * `len()` raises TypeError; the length of the walk when there is none.
   */
  function FirstUnsized(items: seq<string>, entries: map<string, Value>): (p: nat)
    ensures p <= |items|
    ensures forall i :: 0 <= i < p ==> !(items[i] in entries && Len(entries[items[i]]).None?)
    ensures p < |items| ==> items[p] in entries && Len(entries[items[p]]).None?
  {
    if |items| == 0 then 0
    else if items[0] in entries && Len(entries[items[0]]).None? then 0
    else 1 + FirstUnsized(items[1..], entries)
  }

  /** The state of the walk of `strip_empty_exits` after its first k exits: those exits handled, the rest untouched. */
  ghost predicate StrippedThrough(all: seq<string>, d0: map<string, Value>, k: nat,
                                  items: seq<string>, entries: map<string, Value>)
    requires k <= |all|
  {
    items == Survivors(all[..k], d0) + all[k..] && entries == d0 - EmptiedExits(all[..k], d0)
  }

  /** Part way through the walk, `len()` raises on the current exit exactly when it is the first unsized one. */
  lemma RaisesAt(all: seq<string>, k: nat, d0: map<string, Value>, entries: map<string, Value>)
    requires k < |all| && k <= FirstUnsized(all, d0)
    requires entries == d0 - EmptiedExits(all[..k], d0)
    ensures (all[k] in entries && Len(entries[all[k]]).None?) <==> k == FirstUnsized(all, d0)
  {
    var e := all[k];
    if e in d0 && Len(d0[e]).None? {
      assert !EmptyExit(e, d0);
      assert e in entries;
    }
  }

  /**
   * `strip_empty_exits(exits, data)`: walks a copy of the exits; an exit with an empty value is
   * deleted from the data and removed from the exits, and an exit absent from the data is
   * removed. An exit whose value has no length raises TypeError, and what the walk changed
   * before it stays changed.
   */
  method StripEmptyExits(exits: ExitList, data: DataDict) returns (raised: bool)
    modifies exits, data
    ensures var p := FirstUnsized(old(exits.items), old(data.entries));
      (raised <==> p < |old(exits.items)|) &&
      StrippedThrough(old(exits.items), old(data.entries), p, exits.items, data.entries)
    ensures !raised ==>
      exits.items == Survivors(old(exits.items), old(data.entries)) &&
      data.entries == old(data.entries) - EmptiedExits(old(exits.items), old(data.entries))
  {
    var all := exits.items;
    ghost var d0 := data.entries;
    ghost var p := FirstUnsized(all, d0);
    var k := 0;
    while k < |all|
      invariant 0 <= k <= p
      invariant StrippedThrough(all, d0, k, exits.items, data.entries)
    {
      var e := all[k];
      RaisesAt(all, k, d0, data.entries);
      if e in data.entries && Len(data.entries[e]).None? {
        // `len(data[e])` raises TypeError.
        return true;
      }
      ghost var items, entries := exits.items, data.entries;
      StripExit(exits, data, e);
      StripItemsInvariant(all, k, d0, items, entries, exits.items);
      StripEntriesInvariant(all, k, d0, entries, data.entries);
      k := k + 1;
    }
    assert all[..k] == all;
    return false;
  }

  /** The `exits` entry of a response: the exit list. */
  function ExitsValue(exits: seq<string>): Value {
    PyList(seq(|exits|, i requires 0 <= i < |exits| => PyStr(exits[i])))
  }

  /** The data `json_response` returns, from the data and exits left after stripping. */
  function Response(data: map<string, Value>, exits: seq<string>, success: Value): map<string, Value> {
    var marked := data["is_endpoint" := PyBool(|exits| == 0)];
    var reported := if success != PyNone then marked["success" := success] else marked;
    if |exits| == 0 then reported - {"exits"} else reported["exits" := ExitsValue(exits)]
  }

  /**
   * The response marks an endpoint exactly when no exit survives; it carries the exit list
   * exactly when it is not one; it carries the success flag when one is given and otherwise
   * keeps what the data held; every other key keeps its entry.
   */
  lemma ResponseShape(data: map<string, Value>, exits: seq<string>, success: Value)
    ensures var r := Response(data, exits, success);
      "is_endpoint" in r && r["is_endpoint"] == PyBool(|exits| == 0) &&
      ("exits" in r <==> |exits| > 0) && (|exits| > 0 ==> r["exits"] == ExitsValue(exits)) &&
      (success != PyNone ==> "success" in r && r["success"] == success) &&
      (success == PyNone ==> ("success" in r <==> "success" in data) && ("success" in r ==> r["success"] == data["success"])) &&
      (forall k :: k != "is_endpoint" && k != "success" && k != "exits" ==>
         (k in r <==> k in data) && (k in r ==> r[k] == data[k]))
  {
  }

  /**
   * `json_response(exits, data, success)`: strips the exits, then marks, reports and lists them
   * in the data; the TypeError of the strip escapes, with no response.
   */
  method JsonResponse(exits: ExitList, data: DataDict, success: Value) returns (response: Option<DataDict>)
    modifies exits, data
    ensures var p := FirstUnsized(old(exits.items), old(data.entries));
      (response.None? <==> p < |old(exits.items)|) &&
      (response.None? ==> StrippedThrough(old(exits.items), old(data.entries), p, exits.items, data.entries))
    ensures response.Some? ==>
      response.value == data &&
      exits.items == Survivors(old(exits.items), old(data.entries)) &&
      data.entries == Response(old(data.entries) - EmptiedExits(old(exits.items), old(data.entries)),
                               exits.items, success)
  {
    var raised := StripEmptyExits(exits, data);
    if raised {
      return None;
    }
    ghost var stripped := data.entries;
    var isEndpoint := |exits.items| == 0;
    data.entries := data.entries["is_endpoint" := PyBool(isEndpoint)];
    if success != PyNone {
      data.entries := data.entries["success" := success];
    }
    if isEndpoint {
      if "exits" in data.entries {
        data.entries := data.entries - {"exits"};
      } else {
        assert data.entries - {"exits"} == data.entries;
      }
    } else {
      data.entries := data.entries["exits" := ExitsValue(exits.items)];
    }
    assert data.entries == Response(stripped, exits.items, success);
    response := Some(data);
  }
}
