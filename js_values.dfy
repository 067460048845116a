/** A closed model of the run-time JavaScript values that the kernel inspects by
    type probing (`typeof`, `Array.isArray`, `instanceof Date`, the entity brand,
    `instanceof ValueObject`). Every case the kernel distinguishes is one variant. */
module JsValues {

  datatype JsValue =
    | JsUndefined
    | JsNull
    | JsBool(b: bool)
    | JsNumber(n: int)
    | JsString(s: string)
      /** A `Date`, as whole milliseconds since 1970-01-01T00:00:00Z. */
    | JsDate(time: int)
    | JsArray(items: seq<JsValue>)
      /** A plain object: its own enumerable string keys, in `Object.keys` order. */
    | JsObject(fields: seq<Field>)
      /** An instance of a `ValueObject` subclass; its only own key is `props`. */
    | JsValueObject(props: JsValue)
      /** An instance of an `Entity` subclass (it carries the entity brand and a
          `toObject` method); `entityId` is its id string. */
    | JsEntity(entityId: string, entityProps: seq<Field>, eventSlot: EventSlot)

  datatype Field = Field(key: string, val: JsValue)

  /** The own key `_domainEvents` that an `AggregateRoot` adds after `_id` and `props`,
      holding the pending events; an entity that is not an aggregate has none. */
  datatype EventSlot = NoEventArray | EventArray(events: seq<JsValue>)

  /** An argument the source type-checks at run time: `null`/`undefined`, an object
      that is not of the expected kind, or a proper value. */
  datatype Arg<T> = Absent | Foreign | Given(value: T)

  function Keys(fs: seq<Field>): (ks: seq<string>)
    ensures |ks| == |fs|
    ensures forall i :: 0 <= i < |fs| ==> ks[i] == fs[i].key
  {
    seq(|fs|, i requires 0 <= i < |fs| => fs[i].key)
  }

  /** Keys of a JavaScript object are distinct. */
  predicate DistinctKeys(fs: seq<Field>)
  {
    forall i, j :: 0 <= i < j < |fs| ==> fs[i].key != fs[j].key
  }

  /** Property access `obj[k]`: the value of the field named `k`, or `undefined`. */
  function Lookup(fs: seq<Field>, k: string): (v: JsValue)
    ensures k !in Keys(fs) ==> v == JsUndefined
  {
    if fs == [] then JsUndefined
    else if fs[0].key == k then fs[0].val
    else
      assert Keys(fs) == [fs[0].key] + Keys(fs[1..]);
      Lookup(fs[1..], k)
  }

  /** The first field named `k` is the one property access reads. */
  lemma {:induction false} LookupFirst(fs: seq<Field>, k: string, i: nat)
    requires i < |fs| && fs[i].key == k && k !in Keys(fs[..i])
    ensures Lookup(fs, k) == fs[i].val
  {
    if i > 0 {
      assert fs[0].key == Keys(fs[..i])[0];
      assert Keys(fs[1..][..i - 1]) == Keys(fs[..i])[1..];
      LookupFirst(fs[1..], k, i - 1);
    }
  }

  /** The position of the first field named `k`, or `|fs|` when there is none. */
  function IndexOf(fs: seq<Field>, k: string): (i: nat)
    ensures i <= |fs|
    ensures i < |fs| ==> fs[i].key == k
    ensures forall j :: 0 <= j < i ==> fs[j].key != k
    ensures i == |fs| ==> k !in Keys(fs)
  {
    if fs == [] || fs[0].key == k then 0 else 1 + IndexOf(fs[1..], k)
  }

  /** Property assignment `obj[k] = v`: an existing key keeps its position and takes
      the new value; a new key is appended. */
  function Assign(fs: seq<Field>, k: string, v: JsValue): (r: seq<Field>)
    ensures k in Keys(fs) ==> Keys(r) == Keys(fs)
    ensures k !in Keys(fs) ==> Keys(r) == Keys(fs) + [k]
    ensures DistinctKeys(fs) ==> DistinctKeys(r)
  {
    var i := IndexOf(fs, k);
    if i < |fs| then fs[i := Field(k, v)] else fs + [Field(k, v)]
  }

  /** Assigning behind a field with another key leaves that field in front. */
  lemma AssignCons(f: Field, rest: seq<Field>, k: string, v: JsValue)
    requires f.key != k
    ensures Assign([f] + rest, k, v) == [f] + Assign(rest, k, v)
  {
    var fs := [f] + rest;
    assert fs[1..] == rest;
    var i := IndexOf(rest, k);
    assert IndexOf(fs, k) == i + 1;
    if i < |rest| {
      assert fs[i + 1 := Field(k, v)] == [f] + rest[i := Field(k, v)];
    } else {
      assert fs + [Field(k, v)] == [f] + (rest + [Field(k, v)]);
    }
  }

  /** After `obj[k] = v`, the key `k` reads `v` and every other key reads what it read
      before. */
  lemma {:induction false} AssignLookupAt(fs: seq<Field>, k: string, v: JsValue, k': string)
    ensures Lookup(Assign(fs, k, v), k') == if k' == k then v else Lookup(fs, k')
  {
    if fs == [] {
      assert Assign(fs, k, v) == [Field(k, v)] + [];
      LookupCons(Field(k, v), []);
    } else {
      assert fs == [fs[0]] + fs[1..];
      LookupCons(fs[0], fs[1..]);
      if fs[0].key == k {
        assert Assign(fs, k, v) == [Field(k, v)] + fs[1..];
        LookupCons(Field(k, v), fs[1..]);
      } else {
        AssignCons(fs[0], fs[1..], k, v);
        AssignLookupAt(fs[1..], k, v, k');
        LookupCons(fs[0], Assign(fs[1..], k, v));
      }
    }
  }

  lemma AssignLookup(fs: seq<Field>, k: string, v: JsValue)
    ensures Lookup(Assign(fs, k, v), k) == v
    ensures forall k' :: k' != k ==> Lookup(Assign(fs, k, v), k') == Lookup(fs, k')
  {
    AssignLookupAt(fs, k, v, k);
    forall k' | k' != k ensures Lookup(Assign(fs, k, v), k') == Lookup(fs, k') {
      AssignLookupAt(fs, k, v, k');
    }
  }

  /** Property access on an object with a field in front: that field, or the rest. */
  lemma LookupCons(f: Field, rest: seq<Field>)
    ensures forall k :: Lookup([f] + rest, k) == if f.key == k then f.val else Lookup(rest, k)
  {
    assert ([f] + rest)[1..] == rest;
  }

  /** Object spread `{...base, ...extra}`: the fields of `extra` are assigned onto
      `base` one by one, in their order. */
  function Spread(base: seq<Field>, extra: seq<Field>): (r: seq<Field>)
    ensures DistinctKeys(base) ==> DistinctKeys(r)
    decreases |extra|
  {
    if extra == [] then base
    else Spread(Assign(base, extra[0].key, extra[0].val), extra[1..])
  }

  /** After a spread, a key of `extra` reads the value `extra` gives it and every
      other key reads what it read in `base`. */
  lemma {:induction false} SpreadLookup(base: seq<Field>, extra: seq<Field>, k: string)
    requires DistinctKeys(extra)
    ensures Lookup(Spread(base, extra), k)
            == if k in Keys(extra) then Lookup(extra, k) else Lookup(base, k)
    decreases |extra|
  {
    if extra != [] {
      var b := Assign(base, extra[0].key, extra[0].val);
      var tail := extra[1..];
      AssignLookupAt(base, extra[0].key, extra[0].val, k);
      assert DistinctKeys(tail);
      assert Keys(extra) == [extra[0].key] + Keys(tail);
      SpreadLookup(b, tail, k);
      if k == extra[0].key {
        assert k !in Keys(tail) by {
          forall i | 0 <= i < |tail| ensures Keys(tail)[i] != k {
            assert tail[i] == extra[i + 1];
          }
        }
      } else if k in Keys(tail) {
        assert Lookup(extra, k) == Lookup(tail, k);
      }
    }
  }

  /** Spreading into an empty object copies an object with distinct keys as it is
      (`{ ...props }` is a shallow copy). */
  lemma {:induction false} SpreadIntoEmpty(prefix: seq<Field>, extra: seq<Field>)
    requires DistinctKeys(prefix + extra)
    ensures Spread(prefix, extra) == prefix + extra
    decreases |extra|
  {
    if extra != [] {
      var k := extra[0].key;
      assert k !in Keys(prefix) by {
        forall i | 0 <= i < |prefix| ensures Keys(prefix)[i] != k {
          assert (prefix + extra)[i] == prefix[i];
          assert (prefix + extra)[|prefix|] == extra[0];
        }
      }
      assert Assign(prefix, k, extra[0].val) == prefix + [extra[0]] by {
        AssignAbsent(prefix, k, extra[0].val);
      }
      assert prefix + extra == (prefix + [extra[0]]) + extra[1..];
      SpreadIntoEmpty(prefix + [extra[0]], extra[1..]);
    }
  }

  lemma {:induction false} AssignAbsent(fs: seq<Field>, k: string, v: JsValue)
    requires k !in Keys(fs)
    ensures Assign(fs, k, v) == fs + [Field(k, v)]
  {
    if fs != [] {
      assert Keys(fs) == [fs[0].key] + Keys(fs[1..]);
      AssignAbsent(fs[1..], k, v);
    }
  }

  /** Keys of a spread: those of `base` keep their places at the front. */
  lemma {:induction false} SpreadKeepsBaseKeys(base: seq<Field>, extra: seq<Field>)
    ensures |base| <= |Spread(base, extra)|
    ensures Keys(Spread(base, extra))[..|base|] == Keys(base)
    decreases |extra|
  {
    if extra != [] {
      var k0 := extra[0].key;
      var b := Assign(base, k0, extra[0].val);
      var r := Spread(base, extra);
      assert r == Spread(b, extra[1..]);
      SpreadKeepsBaseKeys(b, extra[1..]);
      assert Keys(b)[..|base|] == Keys(base) by {
        if k0 !in Keys(base) {
          assert Keys(b) == Keys(base) + [k0];
        }
      }
      assert Keys(r)[..|base|] == Keys(r)[..|b|][..|base|];
    }
  }

  /** The keys of a spread are those of either side. */
  lemma {:induction false} SpreadKeySet(base: seq<Field>, extra: seq<Field>, k: string)
    ensures k in Keys(Spread(base, extra)) <==> k in Keys(base) || k in Keys(extra)
    decreases |extra|
  {
    if extra != [] {
      var k0 := extra[0].key;
      var b := Assign(base, k0, extra[0].val);
      assert Spread(base, extra) == Spread(b, extra[1..]);
      SpreadKeySet(b, extra[1..], k);
      assert Keys(extra) == [k0] + Keys(extra[1..]);
      if k0 !in Keys(base) {
        assert Keys(b) == Keys(base) + [k0];
      }
    }
  }

  /** In an object with distinct keys, each field's key reads that field's value. */
  lemma LookupDistinct(fs: seq<Field>, i: int)
    requires DistinctKeys(fs) && 0 <= i < |fs|
    ensures Lookup(fs, fs[i].key) == fs[i].val
  {
    assert fs[i].key !in Keys(fs[..i]) by {
      forall j | 0 <= j < i ensures Keys(fs[..i])[j] != fs[i].key {
        assert fs[..i][j] == fs[j];
      }
    }
    LookupFirst(fs, fs[i].key, i);
  }
}
