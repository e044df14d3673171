/**
 * The Moodle REST client (`callMoodleAPI`): endpoint normalisation, parameter
 * flattening and merging, ownership of the timeout timer, and classification of
 * the HTTP reply into a value or one of the client's errors. Both copies of the
 * client are modelled; they differ only in where a body excerpt goes.
 */
module MoodleClient {
  import opened Prelude
  import opened Text
  import opened Js

  const MoodleRestPath: string := "/webservice/rest/server.php"
  const DefaultTimeoutMs: int := 30000
  const ErrorSnippetMaxLength: nat := 800
  const DefaultMoodleMessage: string := "Error de la API de Moodle"

  /** moodle-client.ts puts body excerpts into error messages; moodleClient.ts only logs them. */
  datatype Variant = ExcerptInMessage | ExcerptInLog

  // ---------------------------------------------------------------- endpoint

  /** The REST endpoint: the base URL without trailing slashes, then the fixed service path. */
  function Endpoint(moodleUrl: string): (url: string)
    ensures EndsWith(url, MoodleRestPath)
    ensures var base := url[..|url| - |MoodleRestPath|];
            && |base| <= |moodleUrl|
            && base == moodleUrl[..|base|]
            && (base == [] || base[|base| - 1] != '/')
            && forall i | |base| <= i < |moodleUrl| :: moodleUrl[i] == '/'
  {
    var base := StripTrailingSlashes(moodleUrl);
    assert (base + MoodleRestPath)[..|base|] == base;
    base + MoodleRestPath
  }

  /** Trailing slashes on the configured URL never change the endpoint. */
  lemma EndpointIgnoresTrailingSlash(moodleUrl: string)
    ensures Endpoint(moodleUrl + "/") == Endpoint(moodleUrl)
  {
    assert (moodleUrl + "/")[..|moodleUrl|] == moodleUrl;
  }

  // ---------------------------------------------------------------- flattening

  /** One assignment `flattened[key] = value` made by `flattenParams`, in execution order. */
  type Write = (string, string)

  function Bracket(key: string, sub: string): string
  {
    key + "[" + sub + "]"
  }

  predicate Nullish(v: Value)
  {
    v.Null? || v.Undefined?
  }

  /** The writes of `for (const [k, v] of entries)`: nullish fields are skipped, others become `prefix[k]`. */
  function FieldWrites(prefix: string, entries: seq<(string, Value)>): seq<Write>
  {
    if entries == [] then []
    else
      var last := entries[|entries| - 1];
      FieldWrites(prefix, entries[..|entries| - 1])
      + (if Nullish(last.1) then [] else [(Bracket(prefix, last.0), ToStr(last.1))])
  }

  /** The writes for array element `index`: object-like elements spread their entries, anything else (null included) is stringified. */
  function ElementWrites(key: string, index: nat, item: Value): seq<Write>
  {
    if IsObjectLike(item) then FieldWrites(Bracket(key, NatToString(index)), Entries(item))
    else [(Bracket(key, NatToString(index)), ToStr(item))]
  }

  function ArrayWrites(key: string, items: seq<Value>): seq<Write>
  {
    if items == [] then []
    else ArrayWrites(key, items[..|items| - 1]) + ElementWrites(key, |items| - 1, items[|items| - 1])
  }

  /** The writes for one top-level entry. */
  function EntryWrites(key: string, value: Value): seq<Write>
  {
    if Nullish(value) then []
    else if value.Arr? then ArrayWrites(key, value.items)
    else if value.Obj? then FieldWrites(key, value.members)
    else [(key, ToStr(value))]
  }

  function ParamWrites(params: seq<(string, Value)>): seq<Write>
  {
    if params == [] then []
    else ParamWrites(params[..|params| - 1]) + EntryWrites(params[|params| - 1].0, params[|params| - 1].1)
  }

  /** Performing the writes in order on a record. */
  function Assign(m: map<string, string>, ws: seq<Write>): map<string, string>
  {
    if ws == [] then m else Assign(m, ws[..|ws| - 1])[ws[|ws| - 1].0 := ws[|ws| - 1].1]
  }

  /** The last value written to `k`, if any. */
  function LastWrite(ws: seq<Write>, k: string): Option<string>
  {
    if ws == [] then None
    else if ws[|ws| - 1].0 == k then Some(ws[|ws| - 1].1)
    else LastWrite(ws[..|ws| - 1], k)
  }

  /** The record `flattenParams(params)` returns. */
  function Flatten(params: seq<(string, Value)>): map<string, string>
  {
    Assign(map[], ParamWrites(params))
  }

  /** The record after a sequence of writes: each key holds its last written value; unwritten keys keep theirs. */
  lemma {:induction false} AssignLastWriteWins(m: map<string, string>, ws: seq<Write>, k: string)
    ensures k in Assign(m, ws) <==> k in m || LastWrite(ws, k).Some?
    ensures LastWrite(ws, k).Some? ==> Assign(m, ws)[k] == LastWrite(ws, k).value
    ensures LastWrite(ws, k).None? && k in m ==> Assign(m, ws)[k] == m[k]
  {
    if ws != [] {
      AssignLastWriteWins(m, ws[..|ws| - 1], k);
    }
  }

  lemma AssignAppend(m: map<string, string>, ws: seq<Write>, w: Write)
    ensures Assign(m, ws + [w]) == Assign(m, ws)[w.0 := w.1]
  {
    assert (ws + [w])[..|ws|] == ws;
  }

  /** The inner `for (const [k, v] of Object.entries(...))` loop: writes `prefix[k]` for every non-nullish field. */
  method WriteFields(acc: map<string, string>, ghost before: seq<Write>, prefix: string, fields: seq<(string, Value)>)
    returns (flattened: map<string, string>)
    requires acc == Assign(map[], before)
    ensures flattened == Assign(map[], before + FieldWrites(prefix, fields))
  {
    flattened := acc;
    var n := 0;
    assert before + FieldWrites(prefix, fields[..0]) == before;
    while n < |fields|
      invariant 0 <= n <= |fields|
      invariant flattened == Assign(map[], before + FieldWrites(prefix, fields[..n]))
    {
      assert fields[..n + 1][..n] == fields[..n];
      ghost var prev := FieldWrites(prefix, fields[..n]);
      if !Nullish(fields[n].1) {
        var w := (Bracket(prefix, fields[n].0), ToStr(fields[n].1));
        assert FieldWrites(prefix, fields[..n + 1]) == prev + [w];
        assert before + (prev + [w]) == (before + prev) + [w];
        AssignAppend(map[], before + prev, w);
        flattened := flattened[w.0 := w.1];
      } else {
        assert FieldWrites(prefix, fields[..n + 1]) == prev;
      }
      n := n + 1;
    }
    assert fields[..n] == fields;
  }

  /** The `value.forEach((item, index) => ...)` loop over an array parameter. */
  method WriteArray(acc: map<string, string>, ghost before: seq<Write>, key: string, items: seq<Value>)
    returns (flattened: map<string, string>)
    requires acc == Assign(map[], before)
    ensures flattened == Assign(map[], before + ArrayWrites(key, items))
  {
    flattened := acc;
    ghost var done := before;
    var j := 0;
    assert before + ArrayWrites(key, items[..0]) == before;
    while j < |items|
      invariant 0 <= j <= |items|
      invariant done == before + ArrayWrites(key, items[..j])
      invariant flattened == Assign(map[], done)
    {
      ArrayWritesSnoc(key, items, j);
      AppendAssoc(before, ArrayWrites(key, items[..j]), ElementWrites(key, j, items[j]));
      flattened := WriteElement(flattened, done, key, j, items[j]);
      done := done + ElementWrites(key, j, items[j]);
      j := j + 1;
    }
    assert items[..j] == items;
  }

  lemma AppendAssoc<T>(a: seq<T>, b: seq<T>, c: seq<T>)
    ensures a + (b + c) == (a + b) + c
  {
  }

  /** The body of the `forEach` callback for element `index`. */
  method WriteElement(acc: map<string, string>, ghost before: seq<Write>, key: string, index: nat, item: Value)
    returns (flattened: map<string, string>)
    requires acc == Assign(map[], before)
    ensures flattened == Assign(map[], before + ElementWrites(key, index, item))
  {
    if IsObjectLike(item) {
      flattened := WriteFields(acc, before, Bracket(key, NatToString(index)), Entries(item));
    } else {
      var w := (Bracket(key, NatToString(index)), ToStr(item));
      AssignAppend(map[], before, w);
      flattened := acc[w.0 := w.1];
    }
  }

  /** Extending the array by one element appends that element's writes. */
  lemma ArrayWritesSnoc(key: string, items: seq<Value>, j: nat)
    requires j < |items|
    ensures ArrayWrites(key, items[..j + 1]) == ArrayWrites(key, items[..j]) + ElementWrites(key, j, items[j])
  {
    assert items[..j + 1][..j] == items[..j];
  }

  /** The writes of a prefix of the array come first, in the same order. */
  lemma {:induction false} ArrayWritesPrefix(key: string, items: seq<Value>, k: nat)
    requires k <= |items|
    ensures ArrayWrites(key, items[..k]) <= ArrayWrites(key, items)
    decreases |items|
  {
    if k < |items| {
      var init := items[..|items| - 1];
      assert items[..k] == init[..k];
      ArrayWritesPrefix(key, init, k);
      assert ArrayWrites(key, items) == ArrayWrites(key, init) + ElementWrites(key, |items| - 1, items[|items| - 1]);
    } else {
      assert items[..k] == items;
    }
  }

  lemma ParamWritesSnoc(params: seq<(string, Value)>, i: nat)
    requires i < |params|
    ensures ParamWrites(params[..i + 1]) == ParamWrites(params[..i]) + EntryWrites(params[i].0, params[i].1)
  {
    assert params[..i + 1][..i] == params[..i];
  }

  /** `flattenParams`: fills the flat record entry by entry. */
  method FlattenParams(params: seq<(string, Value)>) returns (flattened: map<string, string>)
    ensures flattened == Flatten(params)
  {
    flattened := map[];
    ghost var done: seq<Write> := [];
    var i := 0;
    while i < |params|
      invariant 0 <= i <= |params|
      invariant done == ParamWrites(params[..i])
      invariant flattened == Assign(map[], done)
    {
      var key, value := params[i].0, params[i].1;
      ParamWritesSnoc(params, i);
      if Nullish(value) {
        assert EntryWrites(key, value) == [];
        assert done + EntryWrites(key, value) == done;
      } else if value.Arr? {
        assert EntryWrites(key, value) == ArrayWrites(key, value.items);
        flattened := WriteArray(flattened, done, key, value.items);
      } else if value.Obj? {
        assert EntryWrites(key, value) == FieldWrites(key, value.members);
        flattened := WriteFields(flattened, done, key, value.members);
      } else {
        assert EntryWrites(key, value) == [(key, ToStr(value))];
        AssignAppend(map[], done, (key, ToStr(value)));
        flattened := flattened[key := ToStr(value)];
      }
      done := done + EntryWrites(key, value);
      i := i + 1;
    }
    assert params[..i] == params;
  }

  // ---------------------------------------------------------------- what flattening produces

  lemma {:induction false} LastWriteSomeIff(ws: seq<Write>, k: string)
    ensures LastWrite(ws, k).Some? <==> exists i | 0 <= i < |ws| :: ws[i].0 == k
  {
    if ws != [] {
      LastWriteSomeIff(ws[..|ws| - 1], k);
      if LastWrite(ws[..|ws| - 1], k).Some? {
        var i :| 0 <= i < |ws| - 1 && ws[..|ws| - 1][i].0 == k;
        assert ws[i].0 == k;
      }
    }
  }

  /** Among writes to pairwise distinct keys, each key ends up with its one write. */
  lemma {:induction false} LastWriteOfDistinct(ws: seq<Write>, i: nat)
    requires i < |ws|
    requires forall a, b | 0 <= a < b < |ws| :: ws[a].0 != ws[b].0
    ensures LastWrite(ws, ws[i].0) == Some(ws[i].1)
  {
    if i < |ws| - 1 {
      LastWriteOfDistinct(ws[..|ws| - 1], i);
    }
  }

  lemma BracketIndexInjective(key: string, i: nat, j: nat)
    requires Bracket(key, NatToString(i)) == Bracket(key, NatToString(j))
    ensures i == j
  {
    var a, b := NatToString(i), NatToString(j);
    assert |a| == |b|;
    assert a == Bracket(key, a)[|key| + 1..|key| + 1 + |a|];
    assert b == Bracket(key, b)[|key| + 1..|key| + 1 + |b|];
    NatToStringInjective(i, j);
  }

  /** An array of non-object elements (null included) is written as `key[0]`, `key[1]`, ... in order. */
  lemma {:induction false} ArrayWritesOfPrimitives(key: string, xs: seq<Value>)
    requires forall i | 0 <= i < |xs| :: !IsObjectLike(xs[i])
    ensures |ArrayWrites(key, xs)| == |xs|
    ensures forall i | 0 <= i < |xs| :: ArrayWrites(key, xs)[i] == (Bracket(key, NatToString(i)), ToStr(xs[i]))
  {
    if xs != [] {
      var n := |xs| - 1;
      var init := xs[..n];
      forall i | 0 <= i < |init| ensures !IsObjectLike(init[i]) {
        assert init[i] == xs[i];
      }
      ArrayWritesOfPrimitives(key, init);
      var last := (Bracket(key, NatToString(n)), ToStr(xs[n]));
      assert ElementWrites(key, n, xs[n]) == [last];
      var ws := ArrayWrites(key, xs);
      assert ws == ArrayWrites(key, init) + [last];
      var ws0 := ArrayWrites(key, init);
      forall i | 0 <= i < |xs| ensures ws[i] == (Bracket(key, NatToString(i)), ToStr(xs[i])) {
        if i < n {
          assert ws[i] == ws0[i];
          assert init[i] == xs[i];
        } else {
          assert ws[i] == last;
        }
      }
    }
  }

  lemma ParamWritesSingle(key: string, value: Value)
    ensures ParamWrites([(key, value)]) == EntryWrites(key, value)
  {
    assert [(key, value)][..0] == [];
  }

  /** Reading `key[0]` .. `key[n-1]` back out of a flat record: the remote platform's array convention. */
  function DecodeIndexed(flat: map<string, string>, key: string, n: nat): seq<string>
    requires forall i | 0 <= i < n :: Bracket(key, NatToString(i)) in flat
  {
    seq(n, i requires 0 <= i < n => flat[Bracket(key, NatToString(i))])
  }

  /** Writes to pairwise distinct keys: the record holds exactly those keys, each with its one value. */
  lemma AssignDistinct(ws: seq<Write>)
    requires forall a, b | 0 <= a < b < |ws| :: ws[a].0 != ws[b].0
    ensures Assign(map[], ws).Keys == set i | 0 <= i < |ws| :: ws[i].0
    ensures forall i | 0 <= i < |ws| :: ws[i].0 in Assign(map[], ws) && Assign(map[], ws)[ws[i].0] == ws[i].1
  {
    forall k ensures k in Assign(map[], ws) <==> exists i | 0 <= i < |ws| :: ws[i].0 == k {
      AssignLastWriteWins(map[], ws, k);
      LastWriteSomeIff(ws, k);
    }
    forall i | 0 <= i < |ws| ensures ws[i].0 in Assign(map[], ws) && Assign(map[], ws)[ws[i].0] == ws[i].1 {
      LastWriteOfDistinct(ws, i);
      AssignLastWriteWins(map[], ws, ws[i].0);
    }
  }

  /** The keys `key[0]` .. `key[n-1]`. */
  function IndexKeys(key: string, n: nat): set<string>
  {
    set i | 0 <= i < n :: Bracket(key, NatToString(i))
  }

  /** The flat record of an array parameter of non-object elements holds exactly the keys `key[i]`, each with its element's string. */
  lemma FlattenArrayOfPrimitives(key: string, xs: seq<Value>)
    requires forall i | 0 <= i < |xs| :: !IsObjectLike(xs[i])
    ensures Flatten([(key, Arr(xs))]).Keys == IndexKeys(key, |xs|)
    ensures forall i | 0 <= i < |xs| :: Flatten([(key, Arr(xs))])[Bracket(key, NatToString(i))] == ToStr(xs[i])
  {
    FlattenSingleArray(key, xs);
    ArrayWritesOfPrimitives(key, xs);
    IndexedAssign(key, ArrayWrites(key, xs));
  }

  lemma FlattenSingleArray(key: string, xs: seq<Value>)
    ensures Flatten([(key, Arr(xs))]) == Assign(map[], ArrayWrites(key, xs))
  {
    ParamWritesSingle(key, Arr(xs));
    assert EntryWrites(key, Arr(xs)) == ArrayWrites(key, xs);
  }

  /** Writes to `key[0]`, `key[1]`, ... in index order leave exactly those keys, each with its own value. */
  lemma IndexedAssign(key: string, ws: seq<Write>)
    requires forall i | 0 <= i < |ws| :: ws[i].0 == Bracket(key, NatToString(i))
    ensures Assign(map[], ws).Keys == IndexKeys(key, |ws|)
    ensures forall i | 0 <= i < |ws| :: Assign(map[], ws)[Bracket(key, NatToString(i))] == ws[i].1
  {
    IndexedWritesDistinct(key, ws);
    AssignDistinct(ws);
    assert (set i | 0 <= i < |ws| :: ws[i].0) == IndexKeys(key, |ws|);
  }

  lemma IndexedWritesDistinct(key: string, ws: seq<Write>)
    requires forall i | 0 <= i < |ws| :: ws[i].0 == Bracket(key, NatToString(i))
    ensures forall a, b | 0 <= a < b < |ws| :: ws[a].0 != ws[b].0
  {
    forall a, b | 0 <= a < b < |ws| ensures ws[a].0 != ws[b].0 {
      if ws[a].0 == ws[b].0 { BracketIndexInjective(key, a, b); }
    }
  }

  /**
   * Round trip for an array parameter of non-object elements: decoding the keys `key[i]` in
   * index order gives back each element's string. A null element is not skipped: it is
   * written as the string "null".
   */
  lemma FlattenArrayRoundTrip(key: string, xs: seq<Value>)
    requires forall i | 0 <= i < |xs| :: !IsObjectLike(xs[i])
    ensures forall i | 0 <= i < |xs| :: Bracket(key, NatToString(i)) in Flatten([(key, Arr(xs))])
    ensures DecodeIndexed(Flatten([(key, Arr(xs))]), key, |xs|) == seq(|xs|, i requires 0 <= i < |xs| => ToStr(xs[i]))
  {
    FlattenArrayOfPrimitives(key, xs);
  }

  /** The example of the design notes: `{ids: [1, 2]}` decodes back to `["1", "2"]`; a null element reads "null". */
  lemma IdsRoundTrip()
    ensures DecodeIndexed(Flatten([("ids", Arr([Num(1), Num(2)]))]), "ids", 2) == ["1", "2"]
    ensures var flat := Flatten([("ids", Arr([Num(1), Null]))]); "ids[1]" in flat && flat["ids[1]"] == "null"
  {
    IdsDecodeBack();
    NullIdStringified();
  }

  lemma IdsDecodeBack()
    ensures DecodeIndexed(Flatten([("ids", Arr([Num(1), Num(2)]))]), "ids", 2) == ["1", "2"]
  {
    FlattenArrayRoundTrip("ids", [Num(1), Num(2)]);
  }

  lemma NullIdStringified()
    ensures var flat := Flatten([("ids", Arr([Num(1), Null]))]); "ids[1]" in flat && flat["ids[1]"] == "null"
  {
    FlattenArrayOfPrimitives("ids", [Num(1), Null]);
    assert NatToString(1) == "1";
    assert Bracket("ids", NatToString(1)) == "ids[1]";
  }

  lemma {:induction false} FieldWritesKeys(prefix: string, entries: seq<(string, Value)>, k: string)
    ensures (exists j | 0 <= j < |FieldWrites(prefix, entries)| :: FieldWrites(prefix, entries)[j].0 == k)
        <==> (exists i | 0 <= i < |entries| :: !Nullish(entries[i].1) && Bracket(prefix, entries[i].0) == k)
  {
    if entries != [] {
      var init := entries[..|entries| - 1];
      var last := entries[|entries| - 1];
      FieldWritesKeys(prefix, init, k);
      var ws, ws0 := FieldWrites(prefix, entries), FieldWrites(prefix, init);
      var tail := if Nullish(last.1) then [] else [(Bracket(prefix, last.0), ToStr(last.1))];
      assert ws == ws0 + tail;
      if exists i | 0 <= i < |entries| :: !Nullish(entries[i].1) && Bracket(prefix, entries[i].0) == k {
        var i :| 0 <= i < |entries| && !Nullish(entries[i].1) && Bracket(prefix, entries[i].0) == k;
        if i == |entries| - 1 {
          assert ws[|ws| - 1].0 == k;
        } else {
          assert init[i] == entries[i];
          var j :| 0 <= j < |ws0| && ws0[j].0 == k;
          assert ws[j] == ws0[j];
        }
      }
      if exists j | 0 <= j < |ws| :: ws[j].0 == k {
        var j :| 0 <= j < |ws| && ws[j].0 == k;
        if j < |ws0| {
          assert ws0[j] == ws[j];
          var i :| 0 <= i < |init| && !Nullish(init[i].1) && Bracket(prefix, init[i].0) == k;
          assert entries[i] == init[i];
        } else {
          assert entries[|entries| - 1] == last;
        }
      }
    }
  }

  /** An object parameter contributes exactly the keys `key[k]` of its non-nullish fields. */
  lemma FlattenObjectKeys(key: string, members: seq<(string, Value)>)
    ensures forall k :: (k in Flatten([(key, Obj(members))])
                         <==> exists i | 0 <= i < |members| :: !Nullish(members[i].1) && Bracket(key, members[i].0) == k)
  {
    var ws := FieldWrites(key, members);
    ParamWritesSingle(key, Obj(members));
    forall k ensures k in Assign(map[], ws)
                 <==> exists i | 0 <= i < |members| :: !Nullish(members[i].1) && Bracket(key, members[i].0) == k {
      AssignLastWriteWins(map[], ws, k);
      LastWriteSomeIff(ws, k);
      FieldWritesKeys(key, members, k);
    }
  }

  /** Field names are told apart by their bracketed keys. */
  lemma BracketInjective(key: string, a: string, b: string)
    requires Bracket(key, a) == Bracket(key, b)
    ensures a == b
  {
    var p := key + "[";
    assert |a| == |b|;
    assert a == Bracket(key, a)[|p|..|p| + |a|];
    assert b == Bracket(key, b)[|p|..|p| + |b|];
  }

  /** With distinct field names, the last write to `prefix[k]` is the string of `k`'s (non-nullish) value. */
  lemma {:induction false} FieldWritesLast(prefix: string, entries: seq<(string, Value)>, i: nat)
    requires i < |entries| && !Nullish(entries[i].1)
    requires forall a, b | 0 <= a < b < |entries| :: entries[a].0 != entries[b].0
    ensures LastWrite(FieldWrites(prefix, entries), Bracket(prefix, entries[i].0)) == Some(ToStr(entries[i].1))
  {
    var n := |entries|;
    var init, last := entries[..n - 1], entries[n - 1];
    var tail := if Nullish(last.1) then [] else [(Bracket(prefix, last.0), ToStr(last.1))];
    var ws := FieldWrites(prefix, entries);
    assert ws == FieldWrites(prefix, init) + tail;
    if i == n - 1 {
      assert ws[|ws| - 1] == (Bracket(prefix, last.0), ToStr(last.1));
    } else {
      assert entries[i] == init[i];
      forall a, b | 0 <= a < b < |init| ensures init[a].0 != init[b].0 {
        assert init[a] == entries[a] && init[b] == entries[b];
      }
      FieldWritesLast(prefix, init, i);
      if tail != [] {
        if Bracket(prefix, last.0) == Bracket(prefix, entries[i].0) {
          BracketInjective(prefix, last.0, entries[i].0);
          assert false;
        }
        assert ws[..|ws| - 1] == FieldWrites(prefix, init);
      } else {
        assert ws == FieldWrites(prefix, init);
      }
    }
  }

  /** Flattening an object with distinct field names stores `String(v)` under `key[k]` for each non-nullish field `k: v`. */
  lemma FlattenObjectValues(key: string, members: seq<(string, Value)>, i: nat)
    requires i < |members| && !Nullish(members[i].1)
    requires forall a, b | 0 <= a < b < |members| :: members[a].0 != members[b].0
    ensures Bracket(key, members[i].0) in Flatten([(key, Obj(members))])
    ensures Flatten([(key, Obj(members))])[Bracket(key, members[i].0)] == ToStr(members[i].1)
  {
    ParamWritesSingle(key, Obj(members));
    assert EntryWrites(key, Obj(members)) == FieldWrites(key, members);
    FieldWritesLast(key, members, i);
    AssignLastWriteWins(map[], FieldWrites(key, members), Bracket(key, members[i].0));
  }

  lemma ElementWriteInArrayWrites(key: string, xs: seq<Value>, i: nat, j: nat)
    requires i < |xs| && j < |ElementWrites(key, i, xs[i])|
    ensures exists t | 0 <= t < |ArrayWrites(key, xs)| :: ArrayWrites(key, xs)[t].0 == ElementWrites(key, i, xs[i])[j].0
  {
    var pre, ew := ArrayWrites(key, xs[..i]), ElementWrites(key, i, xs[i]);
    ArrayWritesSnoc(key, xs, i);
    ArrayWritesPrefix(key, xs, i + 1);
    PrefixAt(pre, ew, ArrayWrites(key, xs), j);
  }

  lemma PrefixAt<T>(a: seq<T>, b: seq<T>, c: seq<T>, j: nat)
    requires a + b <= c && j < |b|
    ensures |a| + j < |c| && c[|a| + j] == b[j]
  {
    assert (a + b)[|a| + j] == b[j];
  }

  lemma ObjectElementFieldWritten(key: string, xs: seq<Value>, i: nat, f: nat)
    requires i < |xs| && xs[i].Obj? && f < |xs[i].members| && !Nullish(xs[i].members[f].1)
    ensures exists t | 0 <= t < |ArrayWrites(key, xs)| ::
              ArrayWrites(key, xs)[t].0 == Bracket(Bracket(key, NatToString(i)), xs[i].members[f].0)
  {
    var prefix := Bracket(key, NatToString(i));
    var k := Bracket(prefix, xs[i].members[f].0);
    FieldWritesKeys(prefix, xs[i].members, k);
    var ew := ElementWrites(key, i, xs[i]);
    assert ew == FieldWrites(prefix, xs[i].members);
    var j :| 0 <= j < |ew| && ew[j].0 == k;
    ElementWriteInArrayWrites(key, xs, i, j);
  }

  /** A non-nullish field `k` of an object element `i` of an array parameter is written as `key[i][k]`. */
  lemma FlattenObjectElementField(key: string, xs: seq<Value>, i: nat, f: nat)
    requires i < |xs| && xs[i].Obj? && f < |xs[i].members| && !Nullish(xs[i].members[f].1)
    ensures Bracket(Bracket(key, NatToString(i)), xs[i].members[f].0) in Flatten([(key, Arr(xs))])
  {
    var k := Bracket(Bracket(key, NatToString(i)), xs[i].members[f].0);
    ObjectElementFieldWritten(key, xs, i, f);
    ParamWritesSingle(key, Arr(xs));
    LastWriteSomeIff(ArrayWrites(key, xs), k);
    AssignLastWriteWins(map[], ArrayWrites(key, xs), k);
  }

  /** A nullish top-level value adds nothing; a primitive one is written under its own key. */
  lemma FlattenLastEntry(params: seq<(string, Value)>, key: string, value: Value)
    ensures Nullish(value) ==> Flatten(params + [(key, value)]) == Flatten(params)
    ensures !Nullish(value) && !IsObjectLike(value) ==>
              Flatten(params + [(key, value)]) == Flatten(params)[key := ToStr(value)]
  {
    assert (params + [(key, value)])[..|params|] == params;
    var ws := ParamWrites(params);
    if !Nullish(value) && !IsObjectLike(value) {
      AssignAppend(map[], ws, (key, ToStr(value)));
    } else if Nullish(value) {
      assert ws + [] == ws;
    }
  }

  lemma BracketExtends(prefix: string, sub: string)
    ensures StartsWith(Bracket(prefix, sub), prefix)
  {
    assert Bracket(prefix, sub)[..|prefix|] == prefix;
  }

  lemma StartsWithTransitive(a: string, b: string, c: string)
    requires StartsWith(a, b) && StartsWith(b, c)
    ensures StartsWith(a, c)
  {
    assert a[..|c|] == a[..|b|][..|c|];
  }

  lemma {:induction false} FieldWritesUnder(prefix: string, entries: seq<(string, Value)>, j: nat)
    requires j < |FieldWrites(prefix, entries)|
    ensures StartsWith(FieldWrites(prefix, entries)[j].0, prefix)
  {
    var init := entries[..|entries| - 1];
    var last := entries[|entries| - 1];
    var ws0 := FieldWrites(prefix, init);
    if j < |ws0| {
      FieldWritesUnder(prefix, init, j);
    } else {
      BracketExtends(prefix, last.0);
    }
  }

  lemma ElementWritesUnder(key: string, index: nat, item: Value, j: nat)
    requires j < |ElementWrites(key, index, item)|
    ensures StartsWith(ElementWrites(key, index, item)[j].0, key)
  {
    var p := Bracket(key, NatToString(index));
    BracketExtends(key, NatToString(index));
    if IsObjectLike(item) {
      FieldWritesUnder(p, Entries(item), j);
      StartsWithTransitive(ElementWrites(key, index, item)[j].0, p, key);
    }
  }

  lemma {:induction false} ArrayWritesUnder(key: string, items: seq<Value>, j: nat)
    requires j < |ArrayWrites(key, items)|
    ensures StartsWith(ArrayWrites(key, items)[j].0, key)
  {
    var init := items[..|items| - 1];
    var ws0 := ArrayWrites(key, init);
    if j < |ws0| {
      ArrayWritesUnder(key, init, j);
    } else {
      ElementWritesUnder(key, |items| - 1, items[|items| - 1], j - |ws0|);
    }
  }

  lemma EntryWritesUnder(key: string, value: Value, j: nat)
    requires j < |EntryWrites(key, value)|
    ensures StartsWith(EntryWrites(key, value)[j].0, key)
  {
    if value.Arr? && !Nullish(value) {
      ArrayWritesUnder(key, value.items, j);
    } else if value.Obj? {
      FieldWritesUnder(key, value.members, j);
    }
  }

  lemma {:induction false} ParamWritesUnder(params: seq<(string, Value)>, j: nat)
    requires j < |ParamWrites(params)|
    ensures exists i | 0 <= i < |params| :: StartsWith(ParamWrites(params)[j].0, params[i].0)
  {
    var init := params[..|params| - 1];
    var ws0 := ParamWrites(init);
    if j < |ws0| {
      ParamWritesUnder(init, j);
      var i :| 0 <= i < |init| && StartsWith(ws0[j].0, init[i].0);
      assert params[i] == init[i];
    } else {
      EntryWritesUnder(params[|params| - 1].0, params[|params| - 1].1, j - |ws0|);
    }
  }

  /** Every flattened key begins with the name of a top-level parameter (`key`, `key[i]`, `key[i][f]`, `key[f]`). */
  lemma FlattenKeysUnderParamNames(params: seq<(string, Value)>, k: string)
    ensures k in Flatten(params) ==> exists i | 0 <= i < |params| :: StartsWith(k, params[i].0)
  {
    var ws := ParamWrites(params);
    AssignLastWriteWins(map[], ws, k);
    LastWriteSomeIff(ws, k);
    if k in Flatten(params) {
      var j :| 0 <= j < |ws| && ws[j].0 == k;
      ParamWritesUnder(params, j);
    }
  }

  // ---------------------------------------------------------------- nested lists

  /** A user carrying a `customfields` list of key/value objects, as the user tools accept. */
  const NestedUser: Value := Obj([("username", Str("jdoe")), ("customfields", Arr([CustomField]))])

  const CustomField: Value := Obj([("type", Str("dept")), ("value", Str("IT"))])

  /** The keys the written and the corrected flattening form for `NestedUser` under `users`. */
  lemma NestedUserKeys()
    ensures Bracket("users", NatToString(0)) == "users[0]"
    ensures Bracket("users[0]", "username") == "users[0][username]"
    ensures Bracket("users[0]", "customfields") == "users[0][customfields]"
  {
    assert NatToString(0) == "0";
  }

  lemma CustomFieldKeys()
    ensures Bracket("users[0][customfields]", NatToString(0)) == "users[0][customfields][0]"
    ensures Bracket("users[0][customfields][0]", "type") == "users[0][customfields][0][type]"
    ensures Bracket("users[0][customfields][0]", "value") == "users[0][customfields][0][value]"
  {
    assert NatToString(0) == "0";
  }

  /**
   * As written, flattening stops two levels down: a list inside an array element is sent as
   * `String(list)`, so the key/value pairs of `customfields` reach the server as `[object Object]`
   * and no `users[0][customfields][0][type]` key is sent.
   */
  lemma TwoWrites(w0: Write, w1: Write)
    requires w0.0 != w1.0
    ensures Assign(map[], [w0, w1]).Keys == {w0.0, w1.0}
    ensures Assign(map[], [w0, w1])[w0.0] == w0.1 && Assign(map[], [w0, w1])[w1.0] == w1.1
  {
    AssignAppend(map[], [], w0);
    AssignAppend(map[], [w0], w1);
    assert [] + [w0] == [w0] && [w0] + [w1] == [w0, w1];
  }

  lemma ThreeWrites(w0: Write, w1: Write, w2: Write)
    requires w0.0 != w1.0 && w0.0 != w2.0 && w1.0 != w2.0
    ensures Assign(map[], [w0, w1, w2]).Keys == {w0.0, w1.0, w2.0}
    ensures Assign(map[], [w0, w1, w2])[w1.0] == w1.1 && Assign(map[], [w0, w1, w2])[w2.0] == w2.1
  {
    TwoWrites(w0, w1);
    AssignAppend(map[], [w0, w1], w2);
    assert [w0, w1] + [w2] == [w0, w1, w2];
  }

  lemma CustomFieldsText()
    ensures ToStr(Arr([CustomField])) == "[object Object]"
  {
    var items := [CustomField];
    assert seq(1, i requires 0 <= i < 1 => if items[i].Null? || items[i].Undefined? then "" else ToStr(items[i]))
        == ["[object Object]"];
  }

  lemma NestedUserWrites()
    ensures ArrayWrites("users", [NestedUser])
         == [("users[0][username]", "jdoe"), ("users[0][customfields]", "[object Object]")]
  {
    var fields := NestedUser.members;
    var w0 := ("users[0][username]", "jdoe");
    var w1 := ("users[0][customfields]", "[object Object]");
    CustomFieldsText();
    NestedUserKeys();
    assert fields[..1][..0] == [];
    assert FieldWrites("users[0]", fields[..1]) == [w0];
    assert fields[..2 - 1] == fields[..1];
    assert FieldWrites("users[0]", fields) == [w0] + [w1];
    assert ElementWrites("users", 0, NestedUser) == [w0, w1];
    assert [NestedUser][..0] == [];
  }

  lemma NestedListStringified()
    ensures var flat := Flatten([("users", Arr([NestedUser]))]);
            && flat.Keys == {"users[0][username]", "users[0][customfields]"}
            && flat["users[0][customfields]"] == "[object Object]"
  {
    FlattenSingleArray("users", [NestedUser]);
    NestedUserWrites();
    TwoWrites(("users[0][username]", "jdoe"), ("users[0][customfields]", "[object Object]"));
  }

  /** The same rule at every depth: lists and objects are opened wherever they occur, so no value is sent as `[object Object]`. */
  function DeepWrites(key: string, v: Value): seq<Write>
    decreases v, 1, 0
  {
    if Nullish(v) then []
    else if v.Arr? then DeepItems(key, v, |v.items|)
    else if v.Obj? then DeepMembers(key, v, |v.members|)
    else [(key, ToStr(v))]
  }

  /** The first `n` elements of a list: object-like ones are opened, any other (null included) is stringified. */
  function DeepItems(key: string, v: Value, n: nat): seq<Write>
    requires v.Arr? && n <= |v.items|
    decreases v, 0, n
  {
    if n == 0 then []
    else
      var item := v.items[n - 1];
      DeepItems(key, v, n - 1)
      + (if IsObjectLike(item) then DeepWrites(Bracket(key, NatToString(n - 1)), item)
         else [(Bracket(key, NatToString(n - 1)), ToStr(item))])
  }

  /** The first `n` fields of an object: nullish ones are skipped, the others opened or stringified. */
  function DeepMembers(key: string, v: Value, n: nat): seq<Write>
    requires v.Obj? && n <= |v.members|
    decreases v, 0, n
  {
    if n == 0 then []
    else DeepMembers(key, v, n - 1) + DeepWrites(Bracket(key, v.members[n - 1].0), v.members[n - 1].1)
  }

  function DeepParamWrites(params: seq<(string, Value)>): seq<Write>
  {
    if params == [] then []
    else DeepParamWrites(params[..|params| - 1]) + DeepWrites(params[|params| - 1].0, params[|params| - 1].1)
  }

  /** The corrected `flattenParams`. */
  function DeepFlatten(params: seq<(string, Value)>): map<string, string>
  {
    Assign(map[], DeepParamWrites(params))
  }

  /** A value the written two-level flattening already handles: object elements of a list, and objects, hold only primitives. */
  predicate Shallow(v: Value)
  {
    && (v.Obj? ==> forall j | 0 <= j < |v.members| :: !IsObjectLike(v.members[j].1))
    && (v.Arr? ==> forall i | 0 <= i < |v.items| :: !v.items[i].Arr?
                     && (v.items[i].Obj? ==> forall j | 0 <= j < |v.items[i].members| :: !IsObjectLike(v.items[i].members[j].1)))
  }

  lemma {:induction false} DeepMembersAgree(key: string, v: Value, n: nat)
    requires v.Obj? && n <= |v.members|
    requires forall j | 0 <= j < |v.members| :: !IsObjectLike(v.members[j].1)
    ensures DeepMembers(key, v, n) == FieldWrites(key, v.members[..n])
  {
    if n > 0 {
      DeepMembersAgree(key, v, n - 1);
      assert v.members[..n][..n - 1] == v.members[..n - 1];
      assert !IsObjectLike(v.members[n - 1].1);
    }
  }

  lemma {:induction false} DeepItemsAgree(key: string, v: Value, n: nat)
    requires v.Arr? && n <= |v.items| && Shallow(v)
    ensures DeepItems(key, v, n) == ArrayWrites(key, v.items[..n])
  {
    if n > 0 {
      DeepItemsAgree(key, v, n - 1);
      assert v.items[..n][..n - 1] == v.items[..n - 1];
      var item := v.items[n - 1];
      if item.Obj? {
        DeepMembersAgree(Bracket(key, NatToString(n - 1)), item, |item.members|);
        assert item.members[..|item.members|] == item.members;
      }
    }
  }

  /** On the values the written code handles, the corrected flattening writes exactly what it writes. */
  lemma DeepWritesAgree(key: string, v: Value)
    requires Shallow(v)
    ensures DeepWrites(key, v) == EntryWrites(key, v)
  {
    if !Nullish(v) && v.Arr? {
      DeepItemsAgree(key, v, |v.items|);
      assert v.items[..|v.items|] == v.items;
    } else if !Nullish(v) && v.Obj? {
      DeepMembersAgree(key, v, |v.members|);
      assert v.members[..|v.members|] == v.members;
    }
  }

  lemma {:induction false} DeepParamWritesAgree(params: seq<(string, Value)>)
    requires forall i | 0 <= i < |params| :: Shallow(params[i].1)
    ensures DeepParamWrites(params) == ParamWrites(params)
  {
    if params != [] {
      var n := |params|;
      var init, last := params[..n - 1], params[n - 1];
      forall i | 0 <= i < |init| ensures Shallow(init[i].1) {
        assert init[i] == params[i];
      }
      DeepParamWritesAgree(init);
      DeepWritesAgree(last.0, last.1);
      assert DeepParamWrites(params) == DeepParamWrites(init) + DeepWrites(last.0, last.1);
      assert ParamWrites(params) == ParamWrites(init) + EntryWrites(last.0, last.1);
    }
  }

  /** Wherever the written flattening is right, the corrected one sends the same record. */
  lemma DeepFlattenAgrees(params: seq<(string, Value)>)
    requires forall i | 0 <= i < |params| :: Shallow(params[i].1)
    ensures DeepFlatten(params) == Flatten(params)
  {
    DeepParamWritesAgree(params);
  }

  lemma CustomFieldDeepWrites()
    ensures DeepWrites("users[0][customfields]", Arr([CustomField]))
         == [("users[0][customfields][0][type]", "dept"), ("users[0][customfields][0][value]", "IT")]
  {
    var w1 := ("users[0][customfields][0][type]", "dept");
    var w2 := ("users[0][customfields][0][value]", "IT");
    var fk := "users[0][customfields][0]";
    CustomFieldKeys();
    assert DeepWrites(w1.0, Str("dept")) == [w1];
    assert DeepWrites(w2.0, Str("IT")) == [w2];
    assert DeepMembers(fk, CustomField, 1) == [w1];
    assert DeepMembers(fk, CustomField, 2) == [w1, w2];
    assert DeepItems("users[0][customfields]", Arr([CustomField]), 1) == [w1, w2];
  }

  lemma NestedUserDeepWrites()
    ensures DeepParamWrites([("users", Arr([NestedUser]))])
         == [("users[0][username]", "jdoe"), ("users[0][customfields][0][type]", "dept"),
             ("users[0][customfields][0][value]", "IT")]
  {
    var w0 := ("users[0][username]", "jdoe");
    var tail := [("users[0][customfields][0][type]", "dept"), ("users[0][customfields][0][value]", "IT")];
    CustomFieldDeepWrites();
    NestedUserKeys();
    assert DeepWrites(w0.0, Str("jdoe")) == [w0];
    assert DeepMembers("users[0]", NestedUser, 1) == [w0];
    assert DeepMembers("users[0]", NestedUser, 2) == [w0] + tail;
    assert DeepItems("users", Arr([NestedUser]), 1) == [w0] + tail;
    assert [("users", Arr([NestedUser]))][..0] == [];
  }

  /** The corrected flattening sends the custom field's type and value under their full paths. */
  lemma NestedListKept()
    ensures var flat := DeepFlatten([("users", Arr([NestedUser]))]);
            && flat.Keys == {"users[0][username]", "users[0][customfields][0][type]", "users[0][customfields][0][value]"}
            && flat["users[0][customfields][0][type]"] == "dept"
            && flat["users[0][customfields][0][value]"] == "IT"
  {
    NestedUserDeepWrites();
    ThreeWrites(("users[0][username]", "jdoe"), ("users[0][customfields][0][type]", "dept"),
                ("users[0][customfields][0][value]", "IT"));
  }

  // ---------------------------------------------------------------- request

  datatype HttpMethod = GET | POST

  /** A caller's `AbortSignal`, identified abstractly. */
  datatype Signal = Signal(id: nat)

  /** `options?: {method?, signal?, timeoutMs?}` (`method` is `httpMethod` here); an absent `options` is all `None`. */
  datatype Options = Options(httpMethod: Option<HttpMethod>, signal: Option<Signal>, timeoutMs: Option<int>)

  /** Which signal the request is made with: the caller's, or the client's own controller. */
  datatype SignalSource = CallerSignal(signal: Signal) | OwnController

  /**
   * The request handed to `fetch`. For GET the parameters form the query string of `url`,
   * for POST the url-encoded form body; the encoding itself is not modelled.
   */
  datatype Request = Request(httpMethod: HttpMethod, url: string, params: map<string, string>, signal: SignalSource)

  function BaseParams(token: string, functionName: string): map<string, string>
  {
    map["wstoken" := token, "wsfunction" := functionName, "moodlewsrestformat" := "json"]
  }

  /** `{...baseParams, ...flat}`: the three base parameters are always sent unless a flattened key of the same name overrides them. */
  function RequestParams(token: string, functionName: string, flat: map<string, string>): (r: map<string, string>)
    ensures r.Keys == {"wstoken", "wsfunction", "moodlewsrestformat"} + flat.Keys
    ensures forall k | k in flat :: r[k] == flat[k]
    ensures "wstoken" !in flat ==> r["wstoken"] == token
    ensures "wsfunction" !in flat ==> r["wsfunction"] == functionName
    ensures "moodlewsrestformat" !in flat ==> r["moodlewsrestformat"] == "json"
  {
    BaseParams(token, functionName) + flat
  }

  function EffectiveMethod(options: Options): HttpMethod
  {
    if options.httpMethod.Some? then options.httpMethod.value else GET
  }

  function TimeoutMs(options: Options): int
  {
    if options.timeoutMs.Some? then options.timeoutMs.value else DefaultTimeoutMs
  }

  /** The delay of the client's own timer: armed only without a caller signal and with a positive timeout. */
  function OwnTimerDelay(options: Options): (d: Option<int>)
    ensures d.Some? <==> options.signal.None? && TimeoutMs(options) > 0
    ensures d.Some? ==> d.value > 0
    ensures options.signal.None? && options.timeoutMs.None? ==> d == Some(30000)
  {
    if options.signal.None? && TimeoutMs(options) > 0 then Some(TimeoutMs(options)) else None
  }

  function BuildRequest(moodleUrl: string, token: string, functionName: string,
                        params: seq<(string, Value)>, options: Options): Request
  {
    Request(EffectiveMethod(options), Endpoint(moodleUrl), RequestParams(token, functionName, Flatten(params)),
            if options.signal.Some? then CallerSignal(options.signal.value) else OwnController)
  }

  // ---------------------------------------------------------------- reply classification

  /** The parts of a `Response` the client reads: `content-type` is "" when absent. */
  datatype HttpReply = HttpReply(ok: bool, status: int, statusText: string, contentType: string, rawText: string)

  /** What `fetch` (and reading the body) gives: a reply, or a rejection such as an abort. */
  datatype FetchResult = Responded(reply: HttpReply) | Rejected(reason: string)

  /** A `console.error` line: its heading and the body excerpt. */
  datatype LogEntry = LogEntry(heading: string, excerpt: string)

  /** The errors `callMoodleAPI` throws; `excerpt` is the bounded body excerpt, in the message or in `log`. */
  datatype CallError =
    | HttpError(status: int, message: string, excerpt: string, log: Option<LogEntry>)
    | InvalidJson(message: string, excerpt: string, log: Option<LogEntry>)
    | MoodleException(message: string)
    | TransportFailure(message: string)

  /** The trimmed text starts and ends with a matching pair of braces or brackets. */
  function LooksLikeJson(text: string): (b: bool)
    ensures b <==> var t := Trim(text);
                   |t| >= 2 && ((t[0] == '{' && t[|t| - 1] == '}') || (t[0] == '[' && t[|t| - 1] == ']'))
  {
    var t := Trim(text);
    StartsWithChar(t, '{'); EndsWithChar(t, '}'); StartsWithChar(t, '['); EndsWithChar(t, ']');
    (StartsWith(t, "{") && EndsWith(t, "}")) || (StartsWith(t, "[") && EndsWith(t, "]"))
  }

  /** Whitespace around a body never changes whether it looks like JSON. */
  lemma LooksLikeJsonIgnoresWhitespace(pre: string, text: string, post: string)
    requires forall i | 0 <= i < |pre| :: IsJsWhitespace(pre[i])
    requires forall i | 0 <= i < |post| :: IsJsWhitespace(post[i])
    ensures LooksLikeJson(pre + text + post) == LooksLikeJson(text)
  {
    TrimPadded(pre, text, post);
  }

  /** The body is parsed when the content type names JSON or the trimmed text is bracketed like JSON. */
  predicate ShouldParse(reply: HttpReply)
  {
    Contains(reply.contentType, "application/json") || LooksLikeJson(reply.rawText)
  }

  /** `rawText ? JSON.parse(rawText) : null`, with `parse` standing for `JSON.parse` (`None` when it throws). */
  function ParsedBody(rawText: string, parse: string -> Option<Value>): Option<Value>
  {
    if rawText == "" then Some(Null) else parse(rawText)
  }

  function Excerpt(rawText: string): (r: string)
    ensures |r| == Min(ErrorSnippetMaxLength, |rawText|) && r == rawText[..|r|]
  {
    Prefix(rawText, ErrorSnippetMaxLength)
  }

  function HttpFailure(variant: Variant, functionName: string, reply: HttpReply): (e: CallError)
    ensures e.HttpError? && e.status == reply.status
    ensures |e.excerpt| == Min(ErrorSnippetMaxLength, |reply.rawText|) && e.excerpt == reply.rawText[..|e.excerpt|]
    ensures var head := "Moodle HTTP error (" + IntToString(reply.status) + " " + reply.statusText + ") calling " + functionName;
            match variant
            case ExcerptInMessage => e.message == head + ". Body: " + e.excerpt && e.log.None?
            case ExcerptInLog =>
              && e.message == head + "."
              && e.log == Some(LogEntry("[moodle-api] HTTP " + IntToString(reply.status) + " calling " + functionName + ":", e.excerpt))
  {
    var head := "Moodle HTTP error (" + IntToString(reply.status) + " " + reply.statusText + ") calling " + functionName;
    var excerpt := Excerpt(reply.rawText);
    match variant
    case ExcerptInMessage => HttpError(reply.status, head + ". Body: " + excerpt, excerpt, None)
    case ExcerptInLog =>
      HttpError(reply.status, head + ".", excerpt,
                Some(LogEntry("[moodle-api] HTTP " + IntToString(reply.status) + " calling " + functionName + ":", excerpt)))
  }

  function InvalidJsonFailure(variant: Variant, functionName: string, reply: HttpReply): (e: CallError)
    ensures e.InvalidJson?
    ensures |e.excerpt| == Min(ErrorSnippetMaxLength, |reply.rawText|) && e.excerpt == reply.rawText[..|e.excerpt|]
    ensures var head := "Moodle response was not valid JSON calling " + functionName + ". Content-Type: " + reply.contentType;
            match variant
            case ExcerptInMessage => e.message == head + ". Body: " + e.excerpt && e.log.None?
            case ExcerptInLog =>
              && e.message == head + "."
              && e.log == Some(LogEntry("[moodle-api] Invalid JSON from " + functionName + ":", e.excerpt))
  {
    var head := "Moodle response was not valid JSON calling " + functionName + ". Content-Type: " + reply.contentType;
    var excerpt := Excerpt(reply.rawText);
    match variant
    case ExcerptInMessage => InvalidJson(head + ". Body: " + excerpt, excerpt, None)
    case ExcerptInLog =>
      InvalidJson(head + ".", excerpt, Some(LogEntry("[moodle-api] Invalid JSON from " + functionName + ":", excerpt)))
  }

  /** `x ? String(x) : undefined`, with `None` for undefined. */
  function TruthyString(v: Value): Option<string>
  {
    if Truthy(v) then Some(ToStr(v)) else None
  }

  /** `name=value` (with `lead` being `name=`) when the field is truthy and its string is non-empty, nothing otherwise. */
  function OptionalDetail(lead: string, v: Value): seq<string>
  {
    var t := TruthyString(v);
    if t.Some? && t.value != "" then [lead + t.value] else []
  }

  /** `[exception=E, errorcode=C?, debuginfo=D?].filter(Boolean).join(" ")`. */
  function ExceptionDetails(data: Value): string
  {
    Join(["exception=" + ToStr(Get(data, "exception"))]
         + OptionalDetail("errorcode=", Get(data, "errorcode"))
         + OptionalDetail("debuginfo=", Get(data, "debuginfo")), " ")
  }

  /** The message thrown for a reply whose JSON carries a truthy `exception`. */
  function ExceptionMessage(functionName: string, data: Value): string
  {
    var message := if Truthy(Get(data, "message")) then ToStr(Get(data, "message")) else DefaultMoodleMessage;
    "Moodle API error calling " + functionName + ": " + message + " (" + ExceptionDetails(data) + ")"
  }

  lemma JoinTwo(a: string, b: string, sep: string)
    ensures Join([a, b], sep) == a + sep + b
  {
    assert [a, b][..1] == [a];
  }

  lemma JoinThree(a: string, b: string, c: string, sep: string)
    ensures Join([a, b, c], sep) == a + sep + b + sep + c
  {
    assert [a, b, c][..2] == [a, b];
    JoinTwo(a, b, sep);
  }

  /** Joining a head and at most two optional parts puts one separator before each part present. */
  lemma JoinOptional(e: string, cs: seq<string>, ds: seq<string>, sep: string)
    requires |cs| <= 1 && |ds| <= 1
    ensures Join([e] + cs + ds, sep)
         == e + (if cs != [] then sep + cs[0] else "") + (if ds != [] then sep + ds[0] else "")
  {
    if cs != [] && ds != [] {
      assert [e] + cs + ds == [e, cs[0], ds[0]];
      JoinThree(e, cs[0], ds[0], sep);
      AppendAssoc(e, sep, cs[0]);
      AppendAssoc(e + sep + cs[0], sep, ds[0]);
    } else if cs != [] {
      assert [e] + cs + ds == [e, cs[0]];
      JoinTwo(e, cs[0], sep);
      AppendAssoc(e, sep, cs[0]);
      assert e + (sep + cs[0]) + "" == e + (sep + cs[0]);
    } else if ds != [] {
      assert [e] + cs + ds == [e, ds[0]];
      JoinTwo(e, ds[0], sep);
      AppendAssoc(e, sep, ds[0]);
      assert e + "" == e;
    } else {
      assert [e] + cs + ds == [e];
      assert e + "" + "" == e;
    }
  }

  /** One optional detail as it appears after the exception: a space and the detail, or nothing. */
  lemma DetailTail(lead: string, t: Option<string>, xs: seq<string>)
    requires xs == (if t.Some? && t.value != "" then [lead + t.value] else [])
    ensures |xs| <= 1
    ensures (if xs != [] then " " + xs[0] else "") == (if t.Some? && t.value != "" then " " + lead + t.value else "")
  {
    if t.Some? && t.value != "" {
      AppendAssoc(" ", lead, t.value);
    }
  }

  lemma DetailLeads()
    ensures " " + "errorcode=" == " errorcode="
    ensures " " + "debuginfo=" == " debuginfo="
  {
  }

  /** The details for any reply data: the exception, then the error code and the debug information when their strings are non-empty. */
  lemma ExceptionDetailsShape(data: Value)
    ensures var c := TruthyString(Get(data, "errorcode"));
            var d := TruthyString(Get(data, "debuginfo"));
            ExceptionDetails(data)
            == "exception=" + ToStr(Get(data, "exception"))
               + (if c.Some? && c.value != "" then " errorcode=" + c.value else "")
               + (if d.Some? && d.value != "" then " debuginfo=" + d.value else "")
  {
    var e := "exception=" + ToStr(Get(data, "exception"));
    var c, d := TruthyString(Get(data, "errorcode")), TruthyString(Get(data, "debuginfo"));
    var cs, ds := OptionalDetail("errorcode=", Get(data, "errorcode")), OptionalDetail("debuginfo=", Get(data, "debuginfo"));
    DetailTail("errorcode=", c, cs);
    DetailTail("debuginfo=", d, ds);
    DetailLeads();
    JoinOptional(e, cs, ds, " ");
  }

  /** The message for any reply data: the message (or the default) followed by the details in parentheses. */
  lemma ExceptionMessageShape(functionName: string, data: Value)
    ensures var c := TruthyString(Get(data, "errorcode"));
            var d := TruthyString(Get(data, "debuginfo"));
            ExceptionMessage(functionName, data)
            == "Moodle API error calling " + functionName + ": "
               + (if Truthy(Get(data, "message")) then ToStr(Get(data, "message")) else DefaultMoodleMessage)
               + " (" + ("exception=" + ToStr(Get(data, "exception"))
                         + (if c.Some? && c.value != "" then " errorcode=" + c.value else "")
                         + (if d.Some? && d.value != "" then " debuginfo=" + d.value else ""))
               + ")"
  {
    ExceptionDetailsShape(data);
  }

  /** With every optional field present and non-empty, all three details appear in order. */
  lemma ExceptionMessageAllFields(functionName: string, data: Value, e: string, c: string, m: string, d: string)
    requires Get(data, "exception") == Str(e) && e != ""
    requires Get(data, "errorcode") == Str(c) && c != ""
    requires Get(data, "message") == Str(m) && m != ""
    requires Get(data, "debuginfo") == Str(d) && d != ""
    ensures ExceptionMessage(functionName, data)
         == "Moodle API error calling " + functionName + ": " + m
            + " (" + (("exception=" + e) + " " + ("errorcode=" + c) + " " + ("debuginfo=" + d)) + ")"
  {
    assert TruthyString(Str(c)) == Some(c);
    assert TruthyString(Str(d)) == Some(d);
    assert ["exception=" + e] + ["errorcode=" + c] + ["debuginfo=" + d] == ["exception=" + e, "errorcode=" + c, "debuginfo=" + d];
    JoinThree("exception=" + e, "errorcode=" + c, "debuginfo=" + d, " ");
  }

  /** With errorcode but no debuginfo, the details are the exception and the error code. */
  lemma ExceptionMessageWithErrorCode(functionName: string, data: Value, e: string, c: string, m: string)
    requires Get(data, "exception") == Str(e) && e != ""
    requires Get(data, "errorcode") == Str(c) && c != ""
    requires Get(data, "message") == Str(m) && m != ""
    requires !Truthy(Get(data, "debuginfo"))
    ensures ExceptionMessage(functionName, data)
         == "Moodle API error calling " + functionName + ": " + m + " (" + (("exception=" + e) + " " + ("errorcode=" + c)) + ")"
  {
    assert TruthyString(Str(c)) == Some(c);
    assert ["exception=" + e] + ["errorcode=" + c] + [] == ["exception=" + e, "errorcode=" + c];
    JoinTwo("exception=" + e, "errorcode=" + c, " ");
  }

  /** Without message, errorcode or debuginfo, the default message and the exception alone are reported. */
  lemma ExceptionMessageDefaults(functionName: string, data: Value, e: string)
    requires Get(data, "exception") == Str(e) && e != ""
    requires !Truthy(Get(data, "errorcode")) && !Truthy(Get(data, "message")) && !Truthy(Get(data, "debuginfo"))
    ensures ExceptionMessage(functionName, data)
         == "Moodle API error calling " + functionName + ": " + DefaultMoodleMessage + " (" + ("exception=" + e) + ")"
  {
    assert ["exception=" + e] + [] + [] == ["exception=" + e];
  }

  /**
   * The decision on a reply: a non-ok status fails; an unparsed body is returned as text;
   * a body that does not parse fails; parsed JSON with a truthy `exception` fails; any
   * other parsed value is returned as it is.
   */
  function Classify(variant: Variant, functionName: string, reply: HttpReply, parse: string -> Option<Value>)
    : (r: Result<Value, CallError>)
    ensures !reply.ok <==> r.Failure? && r.error.HttpError?
    ensures reply.ok && !ShouldParse(reply) ==> r == Success(Str(reply.rawText))
    ensures r.Failure? && r.error.InvalidJson?
        <==> reply.ok && ShouldParse(reply) && ParsedBody(reply.rawText, parse).None?
    ensures r.Failure? && r.error.MoodleException?
        <==> reply.ok && ShouldParse(reply) && ParsedBody(reply.rawText, parse).Some?
             && Truthy(Get(ParsedBody(reply.rawText, parse).value, "exception"))
    ensures reply.ok && ShouldParse(reply) && ParsedBody(reply.rawText, parse).Some?
            && !Truthy(Get(ParsedBody(reply.rawText, parse).value, "exception"))
        ==> r == Success(ParsedBody(reply.rawText, parse).value)
    ensures !(r.Failure? && r.error.TransportFailure?)
    ensures !reply.ok ==> r == Failure(HttpFailure(variant, functionName, reply))
    ensures reply.ok && ShouldParse(reply) && ParsedBody(reply.rawText, parse).None?
        ==> r == Failure(InvalidJsonFailure(variant, functionName, reply))
    ensures reply.ok && ShouldParse(reply) && ParsedBody(reply.rawText, parse).Some?
            && Truthy(Get(ParsedBody(reply.rawText, parse).value, "exception"))
        ==> r == Failure(MoodleException(ExceptionMessage(functionName, ParsedBody(reply.rawText, parse).value)))
  {
    if !reply.ok then Failure(HttpFailure(variant, functionName, reply))
    else if !ShouldParse(reply) then Success(Str(reply.rawText))
    else
      var data := ParsedBody(reply.rawText, parse);
      if data.None? then Failure(InvalidJsonFailure(variant, functionName, reply))
      else if Truthy(Get(data.value, "exception")) then Failure(MoodleException(ExceptionMessage(functionName, data.value)))
      else Success(data.value)
  }

  /** An empty body with a JSON content type is `null`, which is returned. */
  lemma EmptyJsonBodyIsNull(variant: Variant, functionName: string, reply: HttpReply, parse: string -> Option<Value>)
    requires reply.ok && reply.rawText == "" && Contains(reply.contentType, "application/json")
    ensures Classify(variant, functionName, reply, parse) == Success(Null)
  {
  }

  /** The two copies reach the same outcome kind and the same value on every reply; only messages differ. */
  lemma VariantsAgreeOnOutcome(functionName: string, reply: HttpReply, parse: string -> Option<Value>)
    ensures Classify(ExcerptInMessage, functionName, reply, parse).Success?
        <==> Classify(ExcerptInLog, functionName, reply, parse).Success?
    ensures Classify(ExcerptInMessage, functionName, reply, parse).Success?
        ==> Classify(ExcerptInMessage, functionName, reply, parse) == Classify(ExcerptInLog, functionName, reply, parse)
  {
  }

  /** The reply to the invalid-parameter scenario fails with a message naming both exception and error code. */
  lemma InvalidParameterScenario(variant: Variant, reply: HttpReply, parse: string -> Option<Value>)
    requires reply.ok && reply.contentType == "application/json"
    requires reply.rawText != ""
    requires parse(reply.rawText) == Some(Obj([("exception", Str("invalid_parameter_exception")),
                                              ("errorcode", Str("invalidparameter")),
                                              ("message", Str("Invalid parameter"))]))
    ensures Classify(variant, "core_user_create_users", reply, parse)
         == Failure(MoodleException("Moodle API error calling " + "core_user_create_users" + ": " + "Invalid parameter"
                                    + " (" + (("exception=" + "invalid_parameter_exception") + " " + ("errorcode=" + "invalidparameter")) + ")"))
  {
    assert OccursAt(reply.contentType, "application/json", 0);
    var members := [("exception", Str("invalid_parameter_exception")),
                    ("errorcode", Str("invalidparameter")),
                    ("message", Str("Invalid parameter"))];
    var data := Obj(members);
    assert members[..2] == [("exception", Str("invalid_parameter_exception")), ("errorcode", Str("invalidparameter"))];
    assert members[..2][..1] == [("exception", Str("invalid_parameter_exception"))];
    assert Lookup(members[..2][..1], "exception") == Str("invalid_parameter_exception");
    assert Lookup(members[..2], "exception") == Str("invalid_parameter_exception");
    assert Lookup(members[..2], "errorcode") == Str("invalidparameter");
    assert Lookup(members[..2][..1], "debuginfo") == Undefined;
    assert Lookup(members[..2], "debuginfo") == Undefined;
    ExceptionMessageWithErrorCode("core_user_create_users", data, "invalid_parameter_exception", "invalidparameter", "Invalid parameter");
  }

  /** What the call settles to once `fetch` has settled: a rejection propagates, a reply is classified. */
  function Outcome(variant: Variant, functionName: string, fetched: FetchResult, parse: string -> Option<Value>)
    : (r: Result<Value, CallError>)
    ensures fetched.Rejected? <==> r.Failure? && r.error.TransportFailure?
    ensures fetched.Rejected? ==> r == Failure(TransportFailure(fetched.reason))
    ensures fetched.Responded? ==> r == Classify(variant, functionName, fetched.reply, parse)
  {
    match fetched
    case Rejected(reason) => Failure(TransportFailure(reason))
    case Responded(reply) => Classify(variant, functionName, reply, parse)
  }

  // ---------------------------------------------------------------- the call

  /** The host's timer table: `setTimeout` adds an entry, `clearTimeout` removes it. */
  class TimerQueue {
    var pending: map<nat, int>
    var issued: nat

    ghost predicate Valid()
      reads this
    {
      forall id | id in pending :: id < issued
    }

    constructor ()
      ensures Valid() && pending == map[] && issued == 0
    {
      pending := map[];
      issued := 0;
    }

    method SetTimeout(delayMs: int) returns (id: nat)
      requires Valid()
      modifies this
      ensures Valid()
      ensures id !in old(pending) && pending == old(pending)[id := delayMs]
      ensures issued == old(issued) + 1
    {
      id := issued;
      pending := pending[id := delayMs];
      issued := issued + 1;
    }

    method ClearTimeout(id: nat)
      requires Valid()
      modifies this
      ensures Valid()
      ensures pending == map k | k in old(pending) && k != id :: old(pending)[k]
      ensures issued == old(issued)
    {
      pending := map k | k in pending && k != id :: pending[k];
    }
  }

  /**
   * `callMoodleAPI`. `server` stands for the network: the result of `fetch` for the request
   * built; `parse` stands for `JSON.parse`. The client's own timer is armed exactly when
   * `OwnTimerDelay` says so and is cleared on every path, so no timer outlives the call.
   */
  method CallMoodleApi(variant: Variant, timers: TimerQueue, moodleUrl: string, token: string, functionName: string,
                       params: seq<(string, Value)>, options: Options,
                       server: Request -> FetchResult, parse: string -> Option<Value>)
    returns (request: Request, outcome: Result<Value, CallError>, armed: Option<int>)
    requires timers.Valid()
    modifies timers
    ensures timers.Valid()
    ensures timers.pending == old(timers.pending)
    ensures armed == OwnTimerDelay(options)
    ensures timers.issued == old(timers.issued) + (if armed.Some? then 1 else 0)
    ensures request == BuildRequest(moodleUrl, token, functionName, params, options)
    ensures outcome == Outcome(variant, functionName, server(request), parse)
  {
    var url := Endpoint(moodleUrl);
    var flat := FlattenParams(params);
    var httpMethod := EffectiveMethod(options);
    var signal := if options.signal.Some? then CallerSignal(options.signal.value) else OwnController;
    var timeoutMs := TimeoutMs(options);
    var timer: Option<nat> := None;
    armed := None;
    if options.signal.None? && timeoutMs > 0 {
      var id := timers.SetTimeout(timeoutMs);
      timer, armed := Some(id), Some(timeoutMs);
      RemoveAfterAdd(old(timers.pending), timers.pending, id, timeoutMs);
    }

    request := Request(httpMethod, url, RequestParams(token, functionName, flat), signal);
    var fetched := server(request);
    match fetched {
      case Rejected(reason) =>
        outcome := Failure(TransportFailure(reason));
      case Responded(reply) =>
        outcome := Classify(variant, functionName, reply, parse);
    }

    // finally
    if timer.Some? {
      timers.ClearTimeout(timer.value);
    }
  }

  /** Clearing a timer just set gives back the table as it was. */
  lemma RemoveAfterAdd<V>(m: map<nat, V>, added: map<nat, V>, id: nat, v: V)
    requires id !in m && added == m[id := v]
    ensures (map k | k in added && k != id :: added[k]) == m
  {
  }
}
