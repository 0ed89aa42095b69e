/** Plain JavaScript objects as the manifest generator and the form use
    them: the names every object inherits from `Object.prototype`, and what
    the assignment `obj[key] = value` does to an object's own keys and
    their order. */
module JsObjects {

  /** The properties every plain object inherits from `Object.prototype`;
      a lookup `obj[name]` of one of them that is not an own key finds the
      inherited value. */
  const InheritedKeys: set<string> := {
    "constructor", "hasOwnProperty", "isPrototypeOf", "propertyIsEnumerable",
    "toString", "toLocaleString", "valueOf", "__proto__",
    "__defineGetter__", "__defineSetter__", "__lookupGetter__", "__lookupSetter__"}

  /** The inherited accessor through which assignment sets an object's
      prototype instead of adding an own key. */
  const ProtoKey := "__proto__"

  /** One own property whose value is a string. */
  datatype Pair = Pair(key: string, value: string)

  /** An object with string values: its own properties in the order
      `Object.keys` and `JSON.stringify` list them. */
  type Prop = seq<Pair>

  predicate DistinctKeys(p: Prop) {
    forall i, j :: 0 <= i < j < |p| ==> p[i].key != p[j].key
  }

  function Keys(p: Prop): set<string> {
    set i | 0 <= i < |p| :: p[i].key
  }

  // ------------------------------------------------------ array indices

  predicate IsDigit(c: char) { '0' <= c <= '9' }

  predicate AllDigits(s: string) {
    forall i :: 0 <= i < |s| ==> IsDigit(s[i])
  }

  function DigitValue(c: char): nat {
    if IsDigit(c) then (c as int) - ('0' as int) else 0
  }

  /** The number a string of decimal digits denotes. */
  function DecimalValue(s: string): nat {
    if s == [] then 0 else DecimalValue(s[..|s| - 1]) * 10 + DigitValue(s[|s| - 1])
  }

  /** An array index: the canonical decimal form (no leading zero) of an
      integer from 0 to 2^32 - 2. */
  predicate IsIndexKey(k: string) {
    && k != [] && AllDigits(k) && (k[0] != '0' || |k| == 1)
    && DecimalValue(k) < 0xFFFF_FFFF
  }

  /** The order an object lists its own keys in: every array index before
      every other key, the indices by increasing value; the other keys stay
      in the order they were added. */
  predicate KeyOrdered(p: Prop) {
    forall i, j :: 0 <= i < j < |p| && IsIndexKey(p[j].key) ==>
      IsIndexKey(p[i].key) && DecimalValue(p[i].key) < DecimalValue(p[j].key)
  }

  function Pow10(n: nat): nat {
    if n == 0 then 1 else 10 * Pow10(n - 1)
  }

  lemma {:induction false} Pow10Monotone(m: nat, n: nat)
    requires m <= n
    ensures Pow10(m) <= Pow10(n)
    decreases n
  {
    if m < n {
      Pow10Monotone(m, n - 1);
    }
  }

  /** `n` digits denote less than 10^n. */
  lemma {:induction false} DecimalBelow(s: string)
    requires AllDigits(s)
    ensures DecimalValue(s) < Pow10(|s|)
  {
    if s != [] {
      var init := s[..|s| - 1];
      DecimalBelow(init);
      assert DigitValue(s[|s| - 1]) <= 9;
    }
  }

  /** `n` digits without a leading zero denote at least 10^(n-1). */
  lemma {:induction false} DecimalAtLeast(s: string)
    requires AllDigits(s) && |s| >= 1 && s[0] != '0'
    ensures Pow10(|s| - 1) <= DecimalValue(s)
  {
    var init := s[..|s| - 1];
    if |s| >= 2 {
      assert init[0] == s[0];
      DecimalAtLeast(init);
    } else {
      assert init == [];
    }
  }

  /** The last digit and the rest of a number in decimal. */
  lemma DivTen(x: nat, d: nat)
    requires d <= 9
    ensures (x * 10 + d) / 10 == x && (x * 10 + d) % 10 == d
  {
  }

  /** Two digit strings of one length that denote one number are equal. */
  lemma {:induction false} DecimalSameLength(a: string, b: string)
    requires AllDigits(a) && AllDigits(b) && |a| == |b| && DecimalValue(a) == DecimalValue(b)
    ensures a == b
  {
    if a != [] {
      var n := |a| - 1;
      var ia, ib := a[..n], b[..n];
      DivTen(DecimalValue(ia), DigitValue(a[n]));
      DivTen(DecimalValue(ib), DigitValue(b[n]));
      DecimalSameLength(ia, ib);
      assert a[n] == b[n];
      assert a == ia + [a[n]] && b == ib + [b[n]];
    }
  }

  /** Distinct array indices denote distinct numbers. */
  lemma IndexKeyInjective(a: string, b: string)
    requires IsIndexKey(a) && IsIndexKey(b) && DecimalValue(a) == DecimalValue(b)
    ensures a == b
  {
    if |a| < |b| {
      DecimalBelow(a);
      DecimalAtLeast(b);
      Pow10Monotone(|a|, |b| - 1);
      assert false;
    } else if |b| < |a| {
      DecimalBelow(b);
      DecimalAtLeast(a);
      Pow10Monotone(|b|, |a| - 1);
      assert false;
    } else {
      DecimalSameLength(a, b);
    }
  }

  // ------------------------------------------------------- assignment

  /** The place a new array index takes: after the indices it exceeds. */
  function Slot(p: Prop, k: string): (m: nat)
    ensures m <= |p|
    ensures forall i :: 0 <= i < m ==> IsIndexKey(p[i].key) && DecimalValue(p[i].key) < DecimalValue(k)
    ensures m < |p| ==> !(IsIndexKey(p[m].key) && DecimalValue(p[m].key) < DecimalValue(k))
  {
    if p != [] && IsIndexKey(p[0].key) && DecimalValue(p[0].key) < DecimalValue(k) then 1 + Slot(p[1..], k) else 0
  }

  /** The pairs of `p` under keys other than `key`, in order. */
  function Others(p: Prop, key: string): Prop {
    if p == [] then [] else (if p[0].key == key then [] else [p[0]]) + Others(p[1..], key)
  }

  lemma {:induction false} OthersAppend(a: Prop, b: Prop, key: string)
    ensures Others(a + b, key) == Others(a, key) + Others(b, key)
  {
    if a == [] {
      assert a + b == b;
    } else {
      assert (a + b)[0] == a[0];
      assert (a + b)[1..] == a[1..] + b;
      OthersAppend(a[1..], b, key);
    }
  }

  /** What assigning `value` to a key other than `__proto__` leaves: keys
      distinct and in order, the key added and holding the value, and every
      other pair as it was, in the same order. */
  predicate Assigned(p: Prop, key: string, value: string, r: Prop) {
    && DistinctKeys(r) && KeyOrdered(r)
    && Keys(r) == Keys(p) + {key}
    && (forall i :: 0 <= i < |r| && r[i].key == key ==> r[i].value == value)
    && Others(r, key) == Others(p, key)
    && (forall i :: 0 <= i < |r| && r[i].key != key ==> r[i] in p)
  }

  /** `obj[key] = value` with a string value. The name `__proto__` reaches
      the prototype setter, which ignores a string, so the object stays as
      it was. An existing key keeps its place and takes the value. A new
      array index goes among the indices by value, and any other new key
      goes last. */
  function SetKey(p: Prop, key: string, value: string): (r: Prop)
    requires DistinctKeys(p) && KeyOrdered(p)
    ensures DistinctKeys(r) && KeyOrdered(r)
    ensures key == ProtoKey ==> r == p
    ensures key != ProtoKey ==> Keys(r) == Keys(p) + {key}
    ensures key != ProtoKey ==> forall i :: 0 <= i < |r| && r[i].key == key ==> r[i].value == value
    ensures key != ProtoKey ==> Others(r, key) == Others(p, key)
    ensures forall i :: 0 <= i < |r| && r[i].key != key ==> r[i] in p
  {
    if key == ProtoKey then p
    else if key in Keys(p) then
      var i :| 0 <= i < |p| && p[i].key == key;
      UpdateFacts(p, i, value);
      Updated(p, i, value)
    else if IsIndexKey(key) then
      InsertFacts(p, Slot(p, key), Pair(key, value));
      InsertAt(p, Slot(p, key), Pair(key, value))
    else
      AppendFacts(p, Pair(key, value));
      p + [Pair(key, value)]
  }

  /** The pair at `i` given a new value. */
  function Updated(p: Prop, i: nat, value: string): (r: Prop)
    requires i < |p|
    ensures |r| == |p|
  {
    p[i := Pair(p[i].key, value)]
  }

  lemma UpdateFacts(p: Prop, i: nat, value: string)
    requires DistinctKeys(p) && KeyOrdered(p) && i < |p|
    ensures Assigned(p, p[i].key, value, Updated(p, i, value))
  {
    UpdateKeys(p, i, value);
    UpdateOthers(p, i, value);
  }

  lemma UpdateKeys(p: Prop, i: nat, value: string)
    requires DistinctKeys(p) && KeyOrdered(p) && i < |p|
    ensures DistinctKeys(Updated(p, i, value)) && KeyOrdered(Updated(p, i, value))
    ensures Keys(Updated(p, i, value)) == Keys(p)
    ensures forall j :: 0 <= j < |p| && Updated(p, i, value)[j].key == p[i].key ==> Updated(p, i, value)[j].value == value
    ensures forall j :: 0 <= j < |p| && Updated(p, i, value)[j].key != p[i].key ==> Updated(p, i, value)[j] in p
  {
    var r := Updated(p, i, value);
    assert forall j :: 0 <= j < |r| ==> r[j].key == p[j].key;
    assert Keys(r) == Keys(p);
    forall j | 0 <= j < |r| && r[j].key != p[i].key
      ensures r[j] in p
    {
      assert r[j] == p[j];
    }
  }

  lemma UpdateOthers(p: Prop, i: nat, value: string)
    requires i < |p|
    ensures Others(Updated(p, i, value), p[i].key) == Others(p, p[i].key)
  {
    var q := Pair(p[i].key, value);
    Around(p, i, q);
    OthersAround(p[..i], p[i], p[i + 1..], q.key);
    OthersAround(p[..i], q, p[i + 1..], q.key);
  }

  /** A sequence with one element replaced, as the parts around it. */
  lemma Around<T>(s: seq<T>, i: nat, x: T)
    requires i < |s|
    ensures s[i := x] == s[..i] + [x] + s[i + 1..]
    ensures s == s[..i] + [s[i]] + s[i + 1..]
  {
  }

  lemma Halves<T>(s: seq<T>, m: nat)
    requires m <= |s|
    ensures s[..m] + s[m..] == s
  {
  }

  lemma OthersAround(a: Prop, x: Pair, b: Prop, key: string)
    ensures Others(a + [x] + b, key) == Others(a, key) + (if x.key == key then [] else [x]) + Others(b, key)
  {
    OthersAppend(a + [x], b, key);
    OthersAppend(a, [x], key);
    assert [x][1..] == [];
  }

  /** `q` put in at position `m`. */
  function InsertAt(p: Prop, m: nat, q: Pair): (r: Prop)
    requires m <= |p|
    ensures |r| == |p| + 1
    ensures forall i :: 0 <= i < |r| ==> r[i] == if i < m then p[i] else if i == m then q else p[i - 1]
  {
    p[..m] + [q] + p[m..]
  }

  lemma InsertFacts(p: Prop, m: nat, q: Pair)
    requires DistinctKeys(p) && KeyOrdered(p) && q.key !in Keys(p) && IsIndexKey(q.key)
    requires m == Slot(p, q.key)
    ensures Assigned(p, q.key, q.value, InsertAt(p, m, q))
  {
    InsertOrdered(p, m, q);
    InsertKeys(p, m, q);
    InsertOthers(p, m, q);
  }

  lemma InsertOthers(p: Prop, m: nat, q: Pair)
    requires m <= |p|
    ensures Others(InsertAt(p, m, q), q.key) == Others(p, q.key)
  {
    var a, b := p[..m], p[m..];
    Halves(p, m);
    OthersAround(a, q, b, q.key);
    OthersAppend(a, b, q.key);
  }

  lemma InsertKeys(p: Prop, m: nat, q: Pair)
    requires DistinctKeys(p) && q.key !in Keys(p) && m <= |p|
    ensures DistinctKeys(InsertAt(p, m, q))
    ensures Keys(InsertAt(p, m, q)) == Keys(p) + {q.key}
    ensures forall i :: 0 <= i < |p| + 1 && InsertAt(p, m, q)[i].key == q.key ==> InsertAt(p, m, q)[i] == q
    ensures forall i :: 0 <= i < |p| + 1 && InsertAt(p, m, q)[i].key != q.key ==> InsertAt(p, m, q)[i] in p
  {
    var r := InsertAt(p, m, q);
    forall x | x in Keys(r)
      ensures x in Keys(p) + {q.key}
    {
      var i :| 0 <= i < |r| && r[i].key == x;
      if i < m {
        assert p[i].key == x;
      } else if i > m {
        assert p[i - 1].key == x;
      }
    }
    forall x | x in Keys(p)
      ensures x in Keys(r)
    {
      var i :| 0 <= i < |p| && p[i].key == x;
      if i < m {
        assert r[i] == p[i];
      } else {
        assert r[i + 1] == p[i];
      }
    }
    assert r[m] == q;
  }

  lemma InsertOrdered(p: Prop, m: nat, q: Pair)
    requires DistinctKeys(p) && KeyOrdered(p) && q.key !in Keys(p) && IsIndexKey(q.key)
    requires m == Slot(p, q.key)
    ensures KeyOrdered(InsertAt(p, m, q))
  {
    var r := InsertAt(p, m, q);
    forall i, j | 0 <= i < j < |r| && IsIndexKey(r[j].key)
      ensures IsIndexKey(r[i].key) && DecimalValue(r[i].key) < DecimalValue(r[j].key)
    {
      InsertPairOrdered(p, m, q, i, j);
    }
  }

  lemma InsertPairOrdered(p: Prop, m: nat, q: Pair, i: nat, j: nat)
    requires DistinctKeys(p) && KeyOrdered(p) && q.key !in Keys(p) && IsIndexKey(q.key)
    requires m == Slot(p, q.key)
    requires i < j < |p| + 1 && IsIndexKey(InsertAt(p, m, q)[j].key)
    ensures IsIndexKey(InsertAt(p, m, q)[i].key)
    ensures DecimalValue(InsertAt(p, m, q)[i].key) < DecimalValue(InsertAt(p, m, q)[j].key)
  {
    var r := InsertAt(p, m, q);
    if j < m {
      assert r[i] == p[i] && r[j] == p[j];
    } else if j == m {
      assert r[i] == p[i] && r[j] == q;
    } else if i < m {
      assert r[i] == p[i] && r[j] == p[j - 1];
    } else if i == m {
      assert r[i] == q && r[j] == p[j - 1];
      SlotBelow(p, m, q, j - 1);
    } else {
      assert r[i] == p[i - 1] && r[j] == p[j - 1];
    }
  }

  /** An array index at or after the slot of a new index exceeds it. */
  lemma SlotBelow(p: Prop, m: nat, q: Pair, k: nat)
    requires DistinctKeys(p) && KeyOrdered(p) && q.key !in Keys(p) && IsIndexKey(q.key)
    requires m == Slot(p, q.key) && m <= k < |p| && IsIndexKey(p[k].key)
    ensures DecimalValue(q.key) < DecimalValue(p[k].key)
  {
    var x := p[m].key;
    OrderedUpTo(p, m, k);
    assert x in Keys(p);
    IndexKeyAbove(x, q.key);
  }

  /** An array index before an index in an ordered object is at most it. */
  lemma OrderedUpTo(p: Prop, m: nat, k: nat)
    requires KeyOrdered(p) && m <= k < |p| && IsIndexKey(p[k].key)
    ensures IsIndexKey(p[m].key) && DecimalValue(p[m].key) <= DecimalValue(p[k].key)
  {
  }

  /** An array index that is not below another and differs from it is above it. */
  lemma IndexKeyAbove(x: string, y: string)
    requires IsIndexKey(x) && IsIndexKey(y) && x != y
    requires !(DecimalValue(x) < DecimalValue(y))
    ensures DecimalValue(y) < DecimalValue(x)
  {
    if DecimalValue(x) == DecimalValue(y) {
      IndexKeyInjective(x, y);
    }
  }

  lemma AppendFacts(p: Prop, q: Pair)
    requires DistinctKeys(p) && KeyOrdered(p) && q.key !in Keys(p) && !IsIndexKey(q.key)
    ensures Assigned(p, q.key, q.value, p + [q])
  {
    var r := p + [q];
    assert forall j :: 0 <= j < |p| ==> r[j] == p[j];
    assert Keys(r) == Keys(p) + {q.key} by {
      assert r[|p|].key == q.key;
    }
    OthersAppend(p, [q], q.key);
    assert Others([q], q.key) == [];
    assert p + [] == p;
  }

  /** A new key that already stands in order after every key of the object
      is appended: any key that is not an array index, or an index above
      every key there. */
  lemma SetKeyFresh(p: Prop, key: string, value: string)
    requires DistinctKeys(p) && KeyOrdered(p) && key !in Keys(p) && key != ProtoKey
    requires KeyOrdered(p + [Pair(key, value)])
    ensures SetKey(p, key, value) == p + [Pair(key, value)]
  {
    var q := Pair(key, value);
    if IsIndexKey(key) {
      forall i | 0 <= i < |p|
        ensures IsIndexKey(p[i].key) && DecimalValue(p[i].key) < DecimalValue(key)
      {
        var r := p + [q];
        assert r[i] == p[i] && r[|p|] == q;
      }
      var m := Slot(p, key);
      assert InsertAt(p, m, q) == p + [q];
    }
  }

  /** An object with no array-index key is in order. */
  lemma NoIndexOrdered(p: Prop)
    requires forall i :: 0 <= i < |p| ==> !IsIndexKey(p[i].key)
    ensures KeyOrdered(p)
  {
  }

  /** An array index added to an object that holds none is listed first,
      ahead of every key added before it. */
  lemma IndexKeyGoesFirst(p: Prop, key: string, value: string)
    requires DistinctKeys(p) && KeyOrdered(p) && key !in Keys(p) && IsIndexKey(key)
    requires forall i :: 0 <= i < |p| ==> !IsIndexKey(p[i].key)
    ensures SetKey(p, key, value) == [Pair(key, value)] + p
  {
    assert Slot(p, key) == 0;
  }
}
