/** The values the codec works on (the CBORValue union) and the object-model operations on
    them: safe-integer bounds, property lookup and assignment, and the key order maps are
    written in. */
module Values {
  import opened Binary
  import Unicode

  /** Number.MAX_SAFE_INTEGER and Number.MIN_SAFE_INTEGER, ±(2^53 − 1). */
  const MaxSafeInteger: int := 0x1F_FFFF_FFFF_FFFF
  const MinSafeInteger: int := -0x1F_FFFF_FFFF_FFFF

  predicate IsSafeInteger(i: int)
  {
    MinSafeInteger <= i <= MaxSafeInteger
  }

  /** IEEE-754 widths a float is written in. */
  datatype FloatWidth = Half | Single | Double

  /** A float as the wire carries it: its width (the narrowest exact one, chosen by the fp16
      package, which is not part of this model) and its raw bits as an unsigned number. */
  datatype FloatBits = FloatBits(width: FloatWidth, payload: nat)

  /** Bytes taken by a float of the given width. */
  function FloatSize(w: FloatWidth): nat
  {
    match w
    case Half => 2
    case Single => 4
    case Double => 8
  }

  /** A CBORValue. `Int` holds a number the encoder writes as an integer (+0 or a safe integer);
      every other JavaScript number (−0, fractions, NaN, ±Infinity, integers beyond the safe
      range) is a `Float`. A `Map` is a plain object: its own properties in order. */
  datatype Value =
    | Undefined
    | Null
    | Bool(b: bool)
    | Int(i: int)
    | Float(f: FloatBits)
    | Text(s: string)
    | Bytes(data: seq<byte>)
    | Array(items: seq<Value>)
    | Map(entries: seq<(string, Value)>)

  /** The keys of an object, in property order (Object.keys). */
  function Keys(es: seq<(string, Value)>): (r: seq<string>)
    ensures |r| == |es| && forall i :: 0 <= i < |es| ==> r[i] == es[i].0
  {
    seq(|es|, i requires 0 <= i < |es| => es[i].0)
  }

  predicate NoDuplicates(ks: seq<string>)
  {
    forall i, j :: 0 <= i < j < |ks| ==> ks[i] != ks[j]
  }

  predicate DistinctKeys(es: seq<(string, Value)>)
  {
    NoDuplicates(Keys(es))
  }

  /** Index of the property named `k`, or |es| when there is none. */
  function Find(es: seq<(string, Value)>, k: string): (r: nat)
    ensures r <= |es|
    ensures r < |es| ==> es[r].0 == k
  {
    if es == [] then 0 else if es[0].0 == k then 0 else 1 + Find(es[1..], k)
  }

  /** Find stops at the first property named `k`: none before it has that name. */
  lemma {:induction false} FindFirst(es: seq<(string, Value)>, k: string)
    ensures forall i :: 0 <= i < Find(es, k) ==> es[i].0 != k
  {
    if es != [] && es[0].0 != k {
      FindFirst(es[1..], k);
      assert forall i :: 1 <= i < Find(es, k) ==> es[i] == es[1..][i - 1];
    }
  }

  /** `object[k]`: the property's value, or undefined when there is no such property. */
  function Lookup(es: seq<(string, Value)>, k: string): (r: Value)
  {
    var i := Find(es, k);
    if i < |es| then es[i].1 else Undefined
  }

  /** The key that `object[k] = v` never makes an own property of a plain object: assigning
      "__proto__" goes to the Object.prototype accessor instead. */
  const ProtoKey: string := "__proto__"

  predicate IsDigit(c: char)
  {
    '0' <= c <= '9'
  }

  predicate AllDigits(k: string)
  {
    forall i :: 0 <= i < |k| ==> IsDigit(k[i])
  }

  /** The number a string of decimal digits stands for. */
  function DecimalValue(k: string): (r: nat)
    requires AllDigits(k)
  {
    if k == [] then 0 else DecimalValue(k[..|k| - 1]) * 10 + (k[|k| - 1] as int - '0' as int)
  }

  /** An array index (ECMAScript section 6.1.7): the canonical decimal form of an integer from
      0 to 2^32 − 2. An object lists such keys before all others, in ascending numeric order. */
  predicate IsArrayIndex(k: string)
  {
    |k| > 0 && AllDigits(k) && (k[0] != '0' || |k| == 1) && DecimalValue(k) <= 0xFFFF_FFFE
  }

  /** The number of leading array-index keys whose value is below n: where a new array-index
      key of value n goes. */
  function IndexPosition(es: seq<(string, Value)>, n: nat): (p: nat)
    ensures p <= |es|
  {
    if es != [] && IsArrayIndex(es[0].0) && DecimalValue(es[0].0) < n then 1 + IndexPosition(es[1..], n) else 0
  }

  /** Where a new key goes: an array index among the array-index keys by value, any other key
      at the end. */
  function NewPosition(es: seq<(string, Value)>, k: string): (p: nat)
    ensures p <= |es|
    ensures !IsArrayIndex(k) ==> p == |es|
  {
    if IsArrayIndex(k) then IndexPosition(es, DecimalValue(k)) else |es|
  }

  /** `object[k] = v` on a plain object: "__proto__" adds no property; an existing property
      keeps its place and gets the new value; a new array-index key is placed among the
      array-index keys by value, any other new key at the end. */
  function Assign(es: seq<(string, Value)>, k: string, v: Value): (r: seq<(string, Value)>)
    ensures k == ProtoKey ==> r == es
    ensures k != ProtoKey && Find(es, k) == |es| && !IsArrayIndex(k) ==> r == es + [(k, v)]
    ensures |r| == if k == ProtoKey || Find(es, k) < |es| then |es| else |es| + 1
  {
    var i := Find(es, k);
    if k == ProtoKey then es
    else if i < |es| then es[i := (k, v)]
    else
      var p := NewPosition(es, k);
      es[..p] + [(k, v)] + es[p..]
  }

  /** After `object[k] = v` the object holds v for k, unless k is "__proto__", which leaves it
      as it was; it holds what it held before for every other key, and its keys are still
      distinct: a repeated key overwrites the earlier value. */
  lemma AssignLookup(es: seq<(string, Value)>, k: string, v: Value)
    ensures k != ProtoKey ==> Lookup(Assign(es, k, v), k) == v
    ensures k == ProtoKey ==> Assign(es, k, v) == es
    ensures forall k' :: k' != k ==> Lookup(Assign(es, k, v), k') == Lookup(es, k')
    ensures DistinctKeys(es) ==> DistinctKeys(Assign(es, k, v))
  {
    var i := Find(es, k);
    var r := Assign(es, k, v);
    FindFirst(es, k);
    if k == ProtoKey {
    } else if i < |es| {
      assert r[i] == (k, v) && forall j :: 0 <= j < i ==> r[j] == es[j];
      FindFirst(r, k);
      forall k' | k' != k ensures Find(r, k') == Find(es, k') {
        FindUpdate(es, i, k, v, k');
      }
    } else {
      var p := NewPosition(es, k);
      assert r == es[..p] + [(k, v)] + es[p..];
      FindInserted(es, p, k, v);
      forall k' | k' != k ensures Lookup(r, k') == Lookup(es, k') {
        FindInsert(es, p, k, v, k');
      }
      if DistinctKeys(es) {
        forall a, b | 0 <= a < b < |r| ensures r[a].0 != r[b].0 {
          InsertedAt(es, p, k, v, a);
          InsertedAt(es, p, k, v, b);
        }
      }
    }
  }

  lemma {:induction false} FindUpdate(es: seq<(string, Value)>, i: nat, k: string, v: Value, k': string)
    requires i < |es| && es[i].0 == k && k' != k
    ensures Find(es[i := (k, v)], k') == Find(es, k')
  {
    if i > 0 {
      assert es[i := (k, v)][1..] == es[1..][i - 1 := (k, v)];
      FindUpdate(es[1..], i - 1, k, v, k');
    }
  }

  /** The property at index a after inserting (k, v) at index p. */
  lemma InsertedAt(es: seq<(string, Value)>, p: nat, k: string, v: Value, a: nat)
    requires p <= |es| && a <= |es|
    ensures (es[..p] + [(k, v)] + es[p..])[a] == if a < p then es[a] else if a == p then (k, v) else es[a - 1]
  {
  }

  /** Inserting a property named k at index p moves every property with another name that is
      not before p one place on, and no other. */
  lemma {:induction false} FindInsert(es: seq<(string, Value)>, p: nat, k: string, v: Value, k': string)
    requires p <= |es| && k' != k
    ensures Find(es[..p] + [(k, v)] + es[p..], k') == if Find(es, k') < p then Find(es, k') else Find(es, k') + 1
  {
    var r := es[..p] + [(k, v)] + es[p..];
    if p == 0 {
      assert r == [(k, v)] + es && r[1..] == es;
    } else {
      assert r[0] == es[0];
      if es[0].0 != k' {
        assert r[1..] == es[1..][..p - 1] + [(k, v)] + es[1..][p - 1..];
        FindInsert(es[1..], p - 1, k, v, k');
      }
    }
  }

  /** A property named k inserted at index p of an object without one is found at p. */
  lemma {:induction false} FindInserted(es: seq<(string, Value)>, p: nat, k: string, v: Value)
    requires p <= |es| && Find(es, k) == |es|
    ensures Find(es[..p] + [(k, v)] + es[p..], k) == p
  {
    var r := es[..p] + [(k, v)] + es[p..];
    if p > 0 {
      assert r[0] == es[0] && es[0].0 != k;
      assert r[1..] == es[1..][..p - 1] + [(k, v)] + es[1..][p - 1..];
      FindInserted(es[1..], p - 1, k, v);
    }
  }

  /** Find says whether a key is among the keys. */
  lemma {:induction false} FindKeys(es: seq<(string, Value)>, k: string)
    ensures Find(es, k) < |es| <==> k in Keys(es)
  {
    if k in Keys(es) {
      var m :| 0 <= m < |es| && Keys(es)[m] == k;
      FindFirst(es, k);
    }
  }

  /** The keys after `object[k] = v`: k joins them when it is new and not "__proto__". */
  lemma AssignKeys(es: seq<(string, Value)>, k: string, v: Value)
    ensures multiset(Keys(Assign(es, k, v)))
         == if k == ProtoKey || Find(es, k) < |es| then multiset(Keys(es)) else multiset(Keys(es)) + multiset{k}
  {
    var i := Find(es, k);
    if k != ProtoKey {
      if i < |es| {
        KeysUpdate(es, i, k, v);
      } else {
        KeysInsert(es, NewPosition(es, k), k, v);
      }
    }
  }

  lemma KeysUpdate(es: seq<(string, Value)>, i: nat, k: string, v: Value)
    requires i < |es| && es[i].0 == k
    ensures Keys(es[i := (k, v)]) == Keys(es)
  {
  }

  /** The keys after inserting (k, v) at index p: k inserted at index p. */
  lemma KeysInsert(es: seq<(string, Value)>, p: nat, k: string, v: Value)
    requires p <= |es|
    ensures Keys(es[..p] + [(k, v)] + es[p..]) == Keys(es)[..p] + [k] + Keys(es)[p..]
    ensures multiset(Keys(es[..p] + [(k, v)] + es[p..])) == multiset(Keys(es)) + multiset{k}
  {
    var ks := Keys(es);
    assert Keys(es[..p] + [(k, v)] + es[p..]) == ks[..p] + [k] + ks[p..];
    assert ks == ks[..p] + ks[p..];
  }

  /** Array-index keys come first, in ascending numeric order: the order Object.keys lists
      the properties of an ordinary object in (ECMAScript section 10.1.11.1). */
  predicate IndexKeysFirst(ks: seq<string>)
  {
    forall i, j :: 0 <= i < j < |ks| && IsArrayIndex(ks[j]) ==>
      IsArrayIndex(ks[i]) && DecimalValue(ks[i]) <= DecimalValue(ks[j])
  }

  /** The properties before IndexPosition are array indices below n; the one at it is not. */
  lemma {:induction false} IndexPositionBounds(es: seq<(string, Value)>, n: nat)
    ensures forall q :: 0 <= q < IndexPosition(es, n) ==> IsArrayIndex(es[q].0) && DecimalValue(es[q].0) < n
    ensures IndexPosition(es, n) < |es| ==>
      !(IsArrayIndex(es[IndexPosition(es, n)].0) && DecimalValue(es[IndexPosition(es, n)].0) < n)
  {
    if es != [] && IsArrayIndex(es[0].0) && DecimalValue(es[0].0) < n {
      IndexPositionBounds(es[1..], n);
      assert forall q :: 1 <= q < |es| ==> es[q] == es[1..][q - 1];
    }
  }

  /** `object[k] = v` keeps array-index keys first and in ascending order. */
  lemma AssignOrder(es: seq<(string, Value)>, k: string, v: Value)
    requires IndexKeysFirst(Keys(es))
    ensures IndexKeysFirst(Keys(Assign(es, k, v)))
  {
    var i := Find(es, k);
    if k != ProtoKey {
      if i < |es| {
        KeysUpdate(es, i, k, v);
      } else {
        var p := NewPosition(es, k);
        KeysInsert(es, p, k, v);
        if IsArrayIndex(k) {
          IndexPositionBounds(es, DecimalValue(k));
        }
        InsertOrder(Keys(es), p, k);
      }
    }
  }

  /** Inserting key k at index p keeps array-index keys first and ascending when the keys
      before p are array indices no greater than k and, if k is an array index, the key at p
      is not an array index below it. */
  lemma InsertOrder(ks: seq<string>, p: nat, k: string)
    requires IndexKeysFirst(ks) && p <= |ks|
    requires IsArrayIndex(k) ==> forall q :: 0 <= q < p ==> IsArrayIndex(ks[q]) && DecimalValue(ks[q]) < DecimalValue(k)
    requires IsArrayIndex(k) && p < |ks| ==> !(IsArrayIndex(ks[p]) && DecimalValue(ks[p]) < DecimalValue(k))
    requires !IsArrayIndex(k) ==> p == |ks|
    ensures IndexKeysFirst(ks[..p] + [k] + ks[p..])
  {
    var rs := ks[..p] + [k] + ks[p..];
    forall a, b | 0 <= a < b < |rs| && IsArrayIndex(rs[b])
      ensures IsArrayIndex(rs[a]) && DecimalValue(rs[a]) <= DecimalValue(rs[b])
    {
      InsertOrderPair(ks, p, k, a, b);
    }
  }

  lemma InsertOrderPair(ks: seq<string>, p: nat, k: string, a: nat, b: nat)
    requires IndexKeysFirst(ks) && p <= |ks| && a < b <= |ks|
    requires IsArrayIndex(k) ==> forall q :: 0 <= q < p ==> IsArrayIndex(ks[q]) && DecimalValue(ks[q]) < DecimalValue(k)
    requires IsArrayIndex(k) && p < |ks| ==> !(IsArrayIndex(ks[p]) && DecimalValue(ks[p]) < DecimalValue(k))
    requires !IsArrayIndex(k) ==> p == |ks|
    requires IsArrayIndex((ks[..p] + [k] + ks[p..])[b])
    ensures IsArrayIndex((ks[..p] + [k] + ks[p..])[a])
    ensures DecimalValue((ks[..p] + [k] + ks[p..])[a]) <= DecimalValue((ks[..p] + [k] + ks[p..])[b])
  {
    var rs := ks[..p] + [k] + ks[p..];
    var x := if a < p then ks[a] else if a == p then k else ks[a - 1];
    var y := if b < p then ks[b] else if b == p then k else ks[b - 1];
    assert rs[a] == x && rs[b] == y;
    if b > p && a >= p {
      assert IsArrayIndex(ks[p]) && DecimalValue(ks[p]) <= DecimalValue(ks[b - 1]);
    }
  }

  /** `object[k] = v` for each field in turn, starting from `acc`. */
  function AssignAll(acc: seq<(string, Value)>, fields: seq<(string, Value)>): (r: seq<(string, Value)>)
    decreases |fields|
  {
    if fields == [] then acc else AssignAll(Assign(acc, fields[0].0, fields[0].1), fields[1..])
  }

  /** Keys none of which is "__proto__" or a key of `acc`. */
  predicate FreshKeys(acc: seq<(string, Value)>, fields: seq<(string, Value)>)
  {
    forall j :: 0 <= j < |fields| ==> fields[j].0 != ProtoKey && fields[j].0 !in Keys(acc)
  }

  /** Assigning distinct new keys, none of them "__proto__", gives an object with distinct keys
      that holds exactly the old properties and the assigned ones. */
  lemma {:induction false} AssignAllFresh(acc: seq<(string, Value)>, fields: seq<(string, Value)>)
    requires DistinctKeys(acc) && DistinctKeys(fields) && FreshKeys(acc, fields)
    ensures DistinctKeys(AssignAll(acc, fields))
    ensures multiset(Keys(AssignAll(acc, fields))) == multiset(Keys(acc)) + multiset(Keys(fields))
    ensures forall k :: Lookup(AssignAll(acc, fields), k) == Lookup(acc + fields, k)
    decreases |fields|
  {
    if fields == [] {
      assert acc + fields == acc;
    } else {
      var (k0, v0) := fields[0];
      var next, rest := Assign(acc, k0, v0), fields[1..];
      FreshStep(acc, fields);
      AssignAllFresh(next, rest);
      assert Keys(fields) == [k0] + Keys(rest);
      forall k ensures Lookup(next + rest, k) == Lookup(acc + fields, k) {
        FreshLookup(acc, fields, k);
      }
    }
  }

  /** After assigning the first of distinct fresh keys, the rest are fresh. */
  lemma FreshStep(acc: seq<(string, Value)>, fields: seq<(string, Value)>)
    requires DistinctKeys(acc) && DistinctKeys(fields) && FreshKeys(acc, fields) && fields != []
    ensures DistinctKeys(Assign(acc, fields[0].0, fields[0].1)) && DistinctKeys(fields[1..])
    ensures FreshKeys(Assign(acc, fields[0].0, fields[0].1), fields[1..])
    ensures multiset(Keys(Assign(acc, fields[0].0, fields[0].1))) == multiset(Keys(acc)) + multiset{fields[0].0}
  {
    var (k0, v0) := fields[0];
    var next, rest := Assign(acc, k0, v0), fields[1..];
    FindKeys(acc, k0);
    AssignLookup(acc, k0, v0);
    AssignKeys(acc, k0, v0);
    assert Keys(rest) == Keys(fields)[1..];
    forall j | 0 <= j < |rest| ensures rest[j].0 != ProtoKey && rest[j].0 !in Keys(next) {
      var key := rest[j].0;
      assert rest[j] == fields[j + 1];
      assert key != k0 by { assert Keys(fields)[0] == k0 && Keys(fields)[j + 1] == key; }
      assert key !in multiset(Keys(next));
    }
  }

  /** Looking a key up after assigning the first fresh field, in the rest of the fields. */
  lemma FreshLookup(acc: seq<(string, Value)>, fields: seq<(string, Value)>, k: string)
    requires DistinctKeys(acc) && FreshKeys(acc, fields) && fields != []
    ensures Lookup(Assign(acc, fields[0].0, fields[0].1) + fields[1..], k) == Lookup(acc + fields, k)
  {
    var (k0, v0) := fields[0];
    var next := Assign(acc, k0, v0);
    FindKeys(acc, k0);
    AssignLookup(acc, k0, v0);
    AssignKeys(acc, k0, v0);
    LookupConcat(next, fields[1..], k);
    LookupConcat(acc, fields, k);
    FindKeys(next, k);
    FindKeys(acc, k);
    assert k in multiset(Keys(next)) <==> k in multiset(Keys(acc)) || k == k0;
  }

  /** Looking a key up in one list of properties followed by another. */
  lemma {:induction false} LookupConcat(a: seq<(string, Value)>, b: seq<(string, Value)>, k: string)
    ensures Lookup(a + b, k) == if Find(a, k) < |a| then Lookup(a, k) else Lookup(b, k)
  {
    if a != [] {
      assert (a + b)[1..] == a[1..] + b;
      LookupConcat(a[1..], b, k);
    } else {
      assert a + b == b;
    }
  }

  /** Assignments keep array-index keys first and in ascending order. */
  lemma {:induction false} AssignAllOrder(acc: seq<(string, Value)>, fields: seq<(string, Value)>)
    requires IndexKeysFirst(Keys(acc))
    ensures IndexKeysFirst(Keys(AssignAll(acc, fields)))
    decreases |fields|
  {
    if fields != [] {
      AssignOrder(acc, fields[0].0, fields[0].1);
      AssignAllOrder(Assign(acc, fields[0].0, fields[0].1), fields[1..]);
    }
  }

  /** With distinct keys, the property at index i is the one Find returns for its key. */
  lemma FindDistinct(es: seq<(string, Value)>, i: nat)
    requires DistinctKeys(es) && i < |es|
    ensures Find(es, es[i].0) == i
  {
    var ks := Keys(es);
    assert ks[i] == es[i].0;
    FindFirst(es, es[i].0);
  }

  /** JavaScript's `<` on two strings: lexicographic order of UTF-16 code units, a proper
      prefix first. */
  predicate LexLess(a: seq<int>, b: seq<int>)
  {
    if a == [] then b != [] else b != [] && (a[0] < b[0] || (a[0] == b[0] && LexLess(a[1..], b[1..])))
  }

  /** Encoder.compareKeys: shorter keys (in UTF-16 code units) first, then `<`; never 0. */
  function CompareKeys(a: string, b: string): (r: int)
    ensures r == -1 || r == 1
  {
    var ua, ub := Unicode.Utf16(a), Unicode.Utf16(b);
    if |ua| < |ub| then -1
    else if |ub| < |ua| then 1
    else if LexLess(ua, ub) then -1
    else 1
  }

  /** The order compareKeys sorts into. */
  predicate KeyLess(a: string, b: string)
  {
    CompareKeys(a, b) < 0
  }

  lemma {:induction false} LexLessIrreflexive(a: seq<int>)
    ensures !LexLess(a, a)
  {
    if a != [] {
      LexLessIrreflexive(a[1..]);
    }
  }

  lemma {:induction false} LexLessTransitive(a: seq<int>, b: seq<int>, c: seq<int>)
    requires LexLess(a, b) && LexLess(b, c)
    ensures LexLess(a, c)
  {
    if a != [] && a[0] == b[0] && b[0] == c[0] {
      LexLessTransitive(a[1..], b[1..], c[1..]);
    }
  }

  lemma {:induction false} LexLessTotal(a: seq<int>, b: seq<int>)
    requires a != b
    ensures LexLess(a, b) || LexLess(b, a)
  {
    if a != [] && b != [] && a[0] == b[0] {
      assert a == [a[0]] + a[1..] && b == [b[0]] + b[1..];
      LexLessTotal(a[1..], b[1..]);
    }
  }

  /** compareKeys is a strict total order on strings: no key precedes itself, precedence is
      transitive, and of two different keys one precedes the other. */
  lemma KeyLessIsStrictTotalOrder(a: string, b: string, c: string)
    ensures !KeyLess(a, a)
    ensures KeyLess(a, b) && KeyLess(b, c) ==> KeyLess(a, c)
    ensures a != b ==> KeyLess(a, b) || KeyLess(b, a)
  {
    var ua, ub, uc := Unicode.Utf16(a), Unicode.Utf16(b), Unicode.Utf16(c);
    LexLessIrreflexive(ua);
    if KeyLess(a, b) && KeyLess(b, c) && |ua| == |ub| == |uc| {
      LexLessTransitive(ua, ub, uc);
    }
    if a != b {
      if ua == ub {
        Unicode.Utf16Injective(a, b);
      } else {
        LexLessTotal(ua, ub);
      }
    }
  }

  /** A key with fewer UTF-16 code units always comes first, whatever its contents. */
  lemma ShorterKeyFirst(a: string, b: string)
    requires |Unicode.Utf16(a)| < |Unicode.Utf16(b)|
    ensures KeyLess(a, b) && !KeyLess(b, a)
  {
  }

  /** compareKeys puts "b" before "aa" (shorter first) and "a" before "b". */
  lemma KeyLessExamples()
    ensures KeyLess("b", "aa") && !KeyLess("aa", "b")
    ensures KeyLess("a", "b") && !KeyLess("b", "a")
  {
    assert Unicode.Utf16("a") == [97] && Unicode.Utf16("b") == [98];
    assert Unicode.Utf16("aa") == [97, 97];
  }

  /** Inserting one key into a list sorted by compareKeys. */
  function InsertKey(k: string, s: seq<string>): (r: seq<string>)
    ensures multiset(r) == multiset(s) + multiset{k}
  {
    if s == [] then [k]
    else if CompareKeys(k, s[0]) < 0 then [k] + s
    else
      assert s == [s[0]] + s[1..];
      [s[0]] + InsertKey(k, s[1..])
  }

  /** `Object.keys(value).sort(Encoder.compareKeys)`: the keys, rearranged. The library sort
      is modelled by an insertion sort; for distinct keys any correct sort gives the same
      result (SortedKeysUnique). */
  function SortKeys(keys: seq<string>): (r: seq<string>)
    ensures multiset(r) == multiset(keys)
  {
    if keys == [] then []
    else
      assert keys == [keys[0]] + keys[1..];
      InsertKey(keys[0], SortKeys(keys[1..]))
  }

  predicate StrictlySorted(s: seq<string>)
  {
    forall i, j :: 0 <= i < j < |s| ==> KeyLess(s[i], s[j])
  }

  lemma {:induction false} InsertKeySorted(k: string, s: seq<string>)
    requires StrictlySorted(s) && k !in s
    ensures StrictlySorted(InsertKey(k, s))
  {
    if s == [] {
    } else if CompareKeys(k, s[0]) < 0 {
      forall j | 0 <= j < |s| ensures KeyLess(k, s[j]) {
        KeyLessIsStrictTotalOrder(k, s[0], s[j]);
      }
    } else {
      KeyLessIsStrictTotalOrder(k, s[0], k);
      InsertKeySorted(k, s[1..]);
      var t := InsertKey(k, s[1..]);
      forall x | x in t ensures KeyLess(s[0], x) {
        assert x in multiset(t);
        assert x == k || x in multiset(s[1..]);
      }
      SortedCons(s[0], t);
    }
  }

  /** A sorted sequence stays sorted behind a key below all of its elements. */
  lemma SortedCons(h: string, t: seq<string>)
    requires StrictlySorted(t) && forall x :: x in t ==> KeyLess(h, x)
    ensures StrictlySorted([h] + t)
  {
    var r := [h] + t;
    forall i, j | 0 <= i < j < |r| ensures KeyLess(r[i], r[j]) {
      if i == 0 {
        assert r[j] == t[j - 1] && r[j] in t;
      } else {
        assert r[i] == t[i - 1] && r[j] == t[j - 1];
      }
    }
  }

  /** Distinct keys come out of SortKeys strictly increasing in compareKeys order. */
  lemma {:induction false} SortKeysSorted(keys: seq<string>)
    requires NoDuplicates(keys)
    ensures StrictlySorted(SortKeys(keys))
  {
    if keys != [] {
      SortKeysSorted(keys[1..]);
      var t := SortKeys(keys[1..]);
      assert keys[0] !in keys[1..];
      assert keys[0] !in multiset(t);
      InsertKeySorted(keys[0], t);
    }
  }

  /** Two sequences strictly sorted by compareKeys with the same elements are equal: the
      sorted order of a set of keys does not depend on the order they were given in. */
  lemma {:induction false} SortedKeysUnique(a: seq<string>, b: seq<string>)
    requires StrictlySorted(a) && StrictlySorted(b) && multiset(a) == multiset(b)
    ensures a == b
  {
    if a == [] {
      assert |multiset(b)| == 0;
    } else {
      assert |b| > 0 by { assert a[0] in multiset(b); }
      SortedHeadsEqual(a, b);
      MultisetTail(a, b);
      SortedTail(a);
      SortedTail(b);
      SortedKeysUnique(a[1..], b[1..]);
      assert a == [a[0]] + a[1..] && b == [b[0]] + b[1..];
    }
  }

  lemma SortedHeadsEqual(a: seq<string>, b: seq<string>)
    requires StrictlySorted(a) && StrictlySorted(b) && multiset(a) == multiset(b)
    requires |a| > 0 && |b| > 0
    ensures a[0] == b[0]
  {
    assert a[0] in multiset(b) && b[0] in multiset(a);
    var i :| 0 <= i < |a| && a[i] == b[0];
    var j :| 0 <= j < |b| && b[j] == a[0];
    if i > 0 && j > 0 {
      KeyLessIsStrictTotalOrder(a[0], b[0], a[0]);
    }
  }

  lemma MultisetTail(a: seq<string>, b: seq<string>)
    requires |a| > 0 && |b| > 0 && a[0] == b[0] && multiset(a) == multiset(b)
    ensures multiset(a[1..]) == multiset(b[1..])
  {
    assert a == [a[0]] + a[1..] && b == [b[0]] + b[1..];
    assert multiset(a[1..]) == multiset(a) - multiset{a[0]};
    assert multiset(b[1..]) == multiset(b) - multiset{b[0]};
  }

  lemma SortedTail(a: seq<string>)
    requires StrictlySorted(a) && |a| > 0
    ensures StrictlySorted(a[1..])
  {
    forall i, j | 0 <= i < j < |a| - 1 ensures KeyLess(a[1..][i], a[1..][j]) {
      assert a[1..][i] == a[i + 1] && a[1..][j] == a[j + 1];
    }
  }

  /** A JavaScript string is at most 2^53 − 1 UTF-16 code units long. */
  predicate ValidText(s: string)
  {
    |Unicode.Utf16(s)| <= MaxSafeInteger
  }

  /** JavaScript values the model represents faithfully: objects have distinct keys and at
      most 2^53 − 1 of them, integers are safe, a float's bits fit its width, an array is
      shorter than 2^32 (the JavaScript array length limit), and strings and Uint8Arrays are
      no longer than 2^53 − 1. */
  predicate Valid(v: Value)
    decreases v
  {
    match v
    case Int(i) => IsSafeInteger(i)
    case Float(f) => f.payload < Pow256(FloatSize(f.width))
    case Text(s) => ValidText(s)
    case Bytes(data) => |data| <= MaxSafeInteger
    case Array(items) => |items| < 0x1_0000_0000 && forall k :: 0 <= k < |items| ==> Valid(items[k])
    case Map(es) =>
      |es| <= MaxSafeInteger && DistinctKeys(es)
      && forall k :: 0 <= k < |es| ==> ValidText(es[k].0) && Valid(es[k].1)
    case _ => true
  }

  /** Objects have distinct keys, at every depth. */
  predicate WellFormed(v: Value)
    decreases v
  {
    match v
    case Array(items) => forall k :: 0 <= k < |items| ==> WellFormed(items[k])
    case Map(es) => DistinctKeys(es) && forall k :: 0 <= k < |es| ==> WellFormed(es[k].1)
    case _ => true
  }

  /** A key an object keeps as it is through `object[k] = v` and TextDecoder: not
      "__proto__", and not starting with a byte order mark. */
  predicate PlainKey(k: string)
  {
    k != ProtoKey && Unicode.DropByteOrderMark(k) == k
  }

  /** Values decoding gives back unchanged up to property order: no text and no key starts
      with a byte order mark, and no object has a "__proto__" property. */
  predicate Plain(v: Value)
    decreases v
  {
    match v
    case Text(s) => Unicode.DropByteOrderMark(s) == s
    case Array(items) => forall k :: 0 <= k < |items| ==> Plain(items[k])
    case Map(es) => forall k :: 0 <= k < |es| ==> PlainKey(es[k].0) && Plain(es[k].1)
    case _ => true
  }

  /** What decoding an encoding gives back, at every depth: a text loses a leading byte order
      mark, and an object is rebuilt by assigning its properties in compareKeys order, each key
      read back as text, into an empty object. */
  function Canonical(v: Value): (r: Value)
    decreases v, 1
  {
    match v
    case Text(s) => Text(Unicode.DropByteOrderMark(s))
    case Array(items) => Array(seq(|items|, k requires 0 <= k < |items| => Canonical(items[k])))
    case Map(es) => Map(AssignAll([], CanonicalFields(es, SortKeys(Keys(es)))))
    case _ => v
  }

  /** The given keys of an object, each read back as text, with the values it holds for them
      read back. */
  function CanonicalFields(es: seq<(string, Value)>, keys: seq<string>): (r: seq<(string, Value)>)
    ensures |r| == |keys|
    decreases Map(es), 0, |keys|
  {
    if keys == [] then []
    else
      var j := Find(es, keys[0]);
      [(Unicode.DropByteOrderMark(keys[0]), if j < |es| then Canonical(es[j].1) else Undefined)]
      + CanonicalFields(es, keys[1..])
  }

  /** Each field CanonicalFields builds: the key less a leading byte order mark, and the value
      the object holds for the key (undefined when it holds none), read back. */
  lemma {:induction false} CanonicalFieldsAt(es: seq<(string, Value)>, keys: seq<string>)
    ensures forall k :: 0 <= k < |keys| ==>
      CanonicalFields(es, keys)[k] == (Unicode.DropByteOrderMark(keys[k]), Canonical(Lookup(es, keys[k])))
  {
    if keys != [] {
      CanonicalFieldsAt(es, keys[1..]);
      var r := CanonicalFields(es, keys);
      forall k | 1 <= k < |keys| ensures r[k] == CanonicalFields(es, keys[1..])[k - 1] && keys[k] == keys[1..][k - 1] {
      }
    }
  }
}
