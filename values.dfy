/**
 * PHP values as the package stores and reads them: field definitions, extra
 * data, request attributes and validation input are all nested PHP arrays.
 */
module Values {
  import opened Wrappers
  import opened Assoc
  import Text

  /** An array key: PHP arrays are keyed by integers or strings. */
  datatype Key = I(i: int) | S(s: string)

  /** The entries of a PHP array, in order. */
  type Entries = seq<(Key, Value)>

  datatype Value = Null | Bool(b: bool) | Int(i: int) | Str(s: string) | Arr(entries: Entries)

  function Get(a: Entries, k: string): Option<Value> {
    Lookup(a, S(k))
  }

  /** `$a['k'] = $v` */
  function Set(a: Entries, k: string, v: Value): Entries {
    Put(a, S(k), v)
  }

  /** `unset($a['k'])` */
  function Unset(a: Entries, k: string): Entries {
    Remove(a, S(k))
  }

  /** `$a['k']`, where a key that is not there reads as null. */
  function At(a: Entries, k: string): Value {
    Get(a, k).GetOr(Null)
  }

  /** `isset($a['k'])`: the key is there and its value is not null. */
  predicate Isset(a: Entries, k: string) {
    At(a, k) != Null
  }

  /** `$a['k'] ?? $fallback` */
  function Coalesce(a: Entries, k: string, fallback: Value): Value {
    if Isset(a, k) then At(a, k) else fallback
  }

  /** `$v['k']` on any value; reading a key of something that is not an array gives null. */
  function Field(v: Value, k: string): Value {
    if v.Arr? then At(v.entries, k) else Null
  }

  /** PHP's conversion to bool; `empty($v)` is its negation. */
  predicate Truthy(v: Value) {
    match v
    case Null => false
    case Bool(b) => b
    case Int(i) => i != 0
    case Str(s) => Text.Truthy(s)
    case Arr(es) => |es| > 0
  }

  /** A PHP list: the values keyed 0, 1, 2, ... */
  function List(vs: seq<Value>): Value {
    Arr(seq(|vs|, i requires 0 <= i < |vs| => (I(i), vs[i])))
  }

  function StrList(ss: seq<string>): Value {
    List(seq(|ss|, i requires 0 <= i < |ss| => Str(ss[i])))
  }

  /** `get_debug_type($v)`, the type name PHP puts in a `TypeError`. */
  function TypeName(v: Value): string {
    match v
    case Null => "null"
    case Bool(_) => "bool"
    case Int(_) => "int"
    case Str(_) => "string"
    case Arr(_) => "array"
  }

  /**
   * `array_key_exists($k, $v)`: on an array, whether the key is there; on
   * anything else PHP 8 throws a `TypeError`.
   */
  function ArrayKeyExists(k: string, v: Value): Result<bool> {
    if v.Arr? then Success(HasKey(v.entries, S(k)))
    else Failure("array_key_exists(): Argument #2 ($array) must be of type array, " + TypeName(v) + " given")
  }

  /** PHP's conversion of a scalar to string, as `implode` applies it. */
  function ToPhpString(v: Value): string {
    match v
    case Null => ""
    case Bool(b) => if b then "1" else ""
    case Int(i) => Text.IntToString(i)
    case Str(s) => s
    case Arr(_) => "Array"
  }

  /** Every array inside the value, at any depth, has distinct keys. */
  predicate DeepDistinct(v: Value)
    decreases v
  {
    v.Arr? ==> DistinctKeys(v.entries) && forall i :: 0 <= i < |v.entries| ==> DeepDistinct(v.entries[i].1)
  }

  /** The first n entries of `repl` applied to `base` in order, as `array_replace_recursive` does. */
  function ReplaceN(base: Entries, repl: Entries, n: nat): Entries
    requires n <= |repl|
    decreases Arr(repl), n
  {
    if n == 0 then base
    else
      var acc := ReplaceN(base, repl, n - 1);
      var (k, v) := repl[n - 1];
      var prev := Lookup(acc, k);
      if prev.Some? && prev.value.Arr? && v.Arr? then
        Put(acc, k, Arr(ReplaceN(prev.value.entries, v.entries, |v.entries|)))
      else
        Put(acc, k, v)
  }

  /** `array_replace_recursive($base, $repl)` */
  function ReplaceRecursive(base: Entries, repl: Entries): Entries {
    ReplaceN(base, repl, |repl|)
  }

  /** What a key holds after the replacement, given what it held before and the replacing value. */
  function Merged(prev: Option<Value>, v: Value): Value {
    if prev.Some? && prev.value.Arr? && v.Arr? then Arr(ReplaceRecursive(prev.value.entries, v.entries)) else v
  }

  /** What key `k` is expected to read after `array_replace_recursive($base, $repl)`. */
  function MergedLookup(base: Entries, repl: Entries, k: Key): Option<Value> {
    match Lookup(repl, k)
    case None => Lookup(base, k)
    case Some(v) => Some(Merged(Lookup(base, k), v))
  }

  lemma {:induction false} ReplaceNLookup(base: Entries, repl: Entries, n: nat, k: Key)
    requires n <= |repl| && DistinctKeys(repl)
    ensures Lookup(ReplaceN(base, repl, n), k) ==
      match Lookup(repl[..n], k)
      case None => Lookup(base, k)
      case Some(v) => Some(Merged(Lookup(base, k), v))
  {
    if n > 0 {
      var pre := repl[..n - 1];
      var (kk, v) := repl[n - 1];
      assert repl[..n] == pre + [(kk, v)];
      var acc := ReplaceN(base, repl, n - 1);
      ReplaceNLookup(base, repl, n - 1, k);
      ReplaceNLookup(base, repl, n - 1, kk);
      LookupSnoc(pre, kk, v, k);
      LookupSnoc(pre, kk, v, kk);
      LookupFound(pre, kk);
      LookupFound(pre, k);
      assert !HasKey(pre, kk) by {
        assert Keys(pre) == Keys(repl)[..n - 1];
        assert Keys(repl)[n - 1] == kk;
      }
      assert ReplaceN(base, repl, n) == Put(acc, kk, Merged(Lookup(acc, kk), v));
      if k == kk {
        assert Lookup(repl[..n], k) == Some(v);
        assert Lookup(acc, kk) == Lookup(base, kk);
      } else {
        assert Lookup(repl[..n], k) == Lookup(pre, k);
      }
      LookupPut(acc, kk, Merged(Lookup(acc, kk), v), k);
    }
  }

  /**
   * After `array_replace_recursive`, a key the replacement does not mention
   * keeps its value; a key it mentions holds the replacing value, merged key
   * by key when both the old and the new value are arrays.
   */
  lemma ReplaceRecursiveLookup(base: Entries, repl: Entries, k: Key)
    requires DistinctKeys(repl)
    ensures Lookup(ReplaceRecursive(base, repl), k) == MergedLookup(base, repl, k)
  {
    assert repl[..|repl|] == repl;
    ReplaceNLookup(base, repl, |repl|, k);
  }

  /** One write keeps the keys of `base` in front and adds `k` to the keys that may follow them. */
  lemma PutKeysStep(base: Entries, acc: Entries, ks: seq<Key>, k: Key, m: Value)
    requires |acc| >= |base| && Keys(acc)[..|base|] == Keys(base)
    requires forall x :: HasKey(acc, x) <==> HasKey(base, x) || x in ks
    ensures |Put(acc, k, m)| >= |base| && Keys(Put(acc, k, m))[..|base|] == Keys(base)
    ensures forall x :: HasKey(Put(acc, k, m), x) <==> HasKey(base, x) || x in ks + [k]
  {
    KeysPut(acc, k, m);
    assert |Keys(Put(acc, k, m))| == |Put(acc, k, m)|;
  }

  lemma {:induction false} ReplaceNKeys(base: Entries, repl: Entries, n: nat)
    requires n <= |repl|
    ensures |ReplaceN(base, repl, n)| >= |base|
    ensures Keys(ReplaceN(base, repl, n))[..|base|] == Keys(base)
    ensures forall k :: HasKey(ReplaceN(base, repl, n), k) <==> HasKey(base, k) || k in Keys(repl[..n])
    ensures DistinctKeys(base) ==> DistinctKeys(ReplaceN(base, repl, n))
  {
    if n > 0 {
      var acc := ReplaceN(base, repl, n - 1);
      ReplaceNKeys(base, repl, n - 1);
      var (k, v) := repl[n - 1];
      var m := Merged(Lookup(acc, k), v);
      assert ReplaceN(base, repl, n) == Put(acc, k, m);
      assert Keys(repl[..n]) == Keys(repl[..n - 1]) + [k];
      PutKeysStep(base, acc, Keys(repl[..n - 1]), k, m);
      if DistinctKeys(base) {
        PutDistinct(acc, k, m);
      }
    }
  }

  /**
   * The keys already present keep their positions; the new keys of the
   * replacement follow them; a PHP array stays a PHP array.
   */
  lemma ReplaceRecursiveKeys(base: Entries, repl: Entries)
    ensures |ReplaceRecursive(base, repl)| >= |base|
    ensures Keys(ReplaceRecursive(base, repl))[..|base|] == Keys(base)
    ensures forall k :: HasKey(ReplaceRecursive(base, repl), k) <==> HasKey(base, k) || HasKey(repl, k)
    ensures DistinctKeys(base) ==> DistinctKeys(ReplaceRecursive(base, repl))
  {
    assert repl[..|repl|] == repl;
    ReplaceNKeys(base, repl, |repl|);
  }

  lemma {:induction false} ReplaceSelfN(x: Entries, n: nat)
    requires n <= |x| && DeepDistinct(Arr(x))
    ensures ReplaceN(x, x, n) == x
    decreases Arr(x), n
  {
    if n > 0 {
      ReplaceSelfN(x, n - 1);
      var (k, v) := x[n - 1];
      LookupAt(x, n - 1);
      if v.Arr? {
        ReplaceSelfN(v.entries, |v.entries|);
      }
      PutSame(x, k, v);
    }
  }

  /** Replacing an array by itself changes nothing. */
  lemma ReplaceSelf(x: Entries)
    requires DeepDistinct(Arr(x))
    ensures ReplaceRecursive(x, x) == x
  {
    ReplaceSelfN(x, |x|);
  }

  lemma {:induction false} ReplaceAgainN(base: Entries, repl: Entries, n: nat)
    requires n <= |repl| && DeepDistinct(Arr(repl))
    ensures ReplaceN(ReplaceRecursive(base, repl), repl, n) == ReplaceRecursive(base, repl)
    decreases Arr(repl), n
  {
    if n > 0 {
      var x := ReplaceRecursive(base, repl);
      ReplaceAgainN(base, repl, n - 1);
      var (k, v) := repl[n - 1];
      LookupAt(repl, n - 1);
      ReplaceRecursiveLookup(base, repl, k);
      var m := Merged(Lookup(base, k), v);
      assert Lookup(x, k) == Some(m);
      if v.Arr? {
        var prev := Lookup(base, k);
        if prev.Some? && prev.value.Arr? {
          ReplaceAgainN(prev.value.entries, v.entries, |v.entries|);
        } else {
          ReplaceSelf(v.entries);
        }
      }
      assert Merged(Some(m), v) == m;
      PutSame(x, k, m);
    }
  }

  /** Applying the same replacement twice is the same as applying it once. */
  lemma ReplaceRecursiveIdempotent(base: Entries, repl: Entries)
    requires DeepDistinct(Arr(repl))
    ensures ReplaceRecursive(ReplaceRecursive(base, repl), repl) == ReplaceRecursive(base, repl)
  {
    ReplaceAgainN(base, repl, |repl|);
  }

  lemma {:induction false} ReplaceIntoEmptyN(repl: Entries, n: nat)
    requires n <= |repl| && DistinctKeys(repl)
    ensures ReplaceN([], repl, n) == repl[..n]
  {
    if n > 0 {
      ReplaceIntoEmptyN(repl, n - 1);
      var (k, v) := repl[n - 1];
      var pre := repl[..n - 1];
      assert !HasKey(pre, k) by {
        assert Keys(pre) == Keys(repl)[..n - 1];
        assert Keys(repl)[n - 1] == k;
      }
      LookupFound(pre, k);
      PutNew(pre, k, v);
      assert repl[..n] == pre + [(k, v)];
    }
  }

  /** Merging an array into an empty one gives that array. */
  lemma ReplaceIntoEmpty(repl: Entries)
    requires DistinctKeys(repl)
    ensures ReplaceRecursive([], repl) == repl
  {
    ReplaceIntoEmptyN(repl, |repl|);
    assert repl[..|repl|] == repl;
  }

  /** Merging in one new key appends it. */
  lemma ReplaceAddNew(base: Entries, k: Key, v: Value)
    requires !HasKey(base, k)
    ensures ReplaceRecursive(base, [(k, v)]) == base + [(k, v)]
  {
    var repl := [(k, v)];
    assert ReplaceN(base, repl, 0) == base;
    LookupFound(base, k);
    PutNew(base, k, v);
  }

  /** A list's keys are its positions, each holding its value. */
  lemma ListLookup(vs: seq<Value>, i: int)
    requires 0 <= i < |vs|
    ensures DistinctKeys(List(vs).entries)
    ensures Lookup(List(vs).entries, I(i)) == Some(vs[i])
  {
    var es := List(vs).entries;
    var ks := Keys(es);
    assert |ks| == |vs|;
    forall a | 0 <= a < |ks|
      ensures ks[a] == I(a)
    {
      assert es[a] == (I(a), vs[a]);
    }
    forall a, b | 0 <= a < b < |ks|
      ensures ks[a] != ks[b]
    {
      assert ks[a] == I(a) && ks[b] == I(b);
    }
    LookupAt(es, i);
  }
}
