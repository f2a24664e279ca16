/**
 * hamilton/caching/fingerprinting.py on values that are trees of None, text, numbers, booleans, bytes,
 * sequences and objects without fingerprint: exactly which of them it tells apart. Byte strings, and text
 * as its UTF-8 bytes, are written as `string`; a float is its shortest text.
 */
module Fingerprints {
  import opened Sorting
  import opened Prelude

  type Bytes = string

  const NONE_HASH := "<none>"

  /** The letters of `base64.urlsafe_b64encode`, padding apart. */
  predicate IsBase64(c: char) {
    'A' <= c <= 'Z' || 'a' <= c <= 'z' || '0' <= c <= '9' || c == '-' || c == '_'
  }

  /** The text of a digest of 16 bytes: letters and then two signs of padding, which therefore delimit it. */
  predicate IsDigest(s: string) {
    && |s| > 2 && s[|s| - 2..] == "=="
    && forall i :: 0 <= i < |s| - 2 ==> IsBase64(s[i])
  }

  /**
   * `_hash_bytes`: a collision-free digest in compact form. Its 22 letters are not counted, since no digest
   * of fixed length is free of collisions.
   */
  datatype Hasher = Hasher(digest: Bytes -> string) {
    ghost predicate Valid() {
      && (forall b :: IsDigest(digest(b)))
      && (forall a, b :: digest(a) == digest(b) ==> a == b)
    }
  }

  function Unary(n: nat): string {
    if n == 0 then "-" else "a" + Unary(n - 1)
  }

  lemma {:induction false} UnaryShape(n: nat)
    ensures |Unary(n)| == n + 1 && Unary(n)[n] == '-' && forall i :: 0 <= i < n ==> Unary(n)[i] == 'a'
  {
    if n > 0 {
      UnaryShape(n - 1);
    }
  }

  /** A text of letters for any bytes: each code in unary, closed by a dash. */
  function Spelled(b: Bytes): string {
    if b == "" then "" else Unary(b[0] as nat) + Spelled(b[1..])
  }

  lemma {:induction false} SpelledInLetters(b: Bytes)
    ensures forall i :: 0 <= i < |Spelled(b)| ==> IsBase64(Spelled(b)[i])
  {
    if b != "" {
      UnaryShape(b[0] as nat);
      SpelledInLetters(b[1..]);
    }
  }

  lemma {:induction false} SpelledInjective(a: Bytes, b: Bytes)
    requires Spelled(a) == Spelled(b)
    ensures a == b
  {
    if a != "" { UnaryShape(a[0] as nat); }
    if b != "" { UnaryShape(b[0] as nat); }
    if a != "" && b != "" {
      var m, n := a[0] as nat, b[0] as nat;
      assert Spelled(a)[m] == Unary(m)[m] && Spelled(b)[n] == Unary(n)[n];
      assert forall i :: 0 <= i < m ==> Spelled(a)[i] == Unary(m)[i];
      assert forall i :: 0 <= i < n ==> Spelled(b)[i] == Unary(n)[i];
      assert m == n;
      assert Spelled(a)[m + 1..] == Spelled(a[1..]) && Spelled(b)[n + 1..] == Spelled(b[1..]);
      SpelledInjective(a[1..], b[1..]);
      assert a == [a[0]] + a[1..] && b == [b[0]] + b[1..];
    }
  }

  function SpellingHasher(): Hasher {
    Hasher(b => "A" + Spelled(b) + "==")
  }

  /** The assumption on the digest can be met. */
  lemma SomeHasherIsValid()
    ensures SpellingHasher().Valid()
  {
    var h := SpellingHasher();
    forall b ensures IsDigest(h.digest(b)) {
      SpelledInLetters(b);
    }
    forall a, b | h.digest(a) == h.digest(b) ensures a == b {
      assert h.digest(a)[1..|h.digest(a)| - 2] == Spelled(a) && h.digest(b)[1..|h.digest(b)| - 2] == Spelled(b);
      SpelledInjective(a, b);
    }
  }

  datatype Value =
    | PyNone
    | PyStr(utf8: Bytes)
    | PyInt(number: int)
    | PyBool(flag: bool)
    | PyBytes(bytes: Bytes)
    | PyFloat(text: Bytes)
    | PySeq(items: seq<Value>)
    | PyOpaque(id: nat)

  predicate IsPrimitive(v: Value) {
    v.PyStr? || v.PyInt? || v.PyBool? || v.PyBytes? || v.PyFloat?
  }

  // ---------------------------------------------------------------- printing primitives

  function Digit(d: nat): char
    requires d < 10
  {
    "0123456789"[d]
  }

  function Decimal(n: nat): Bytes {
    if n < 10 then [Digit(n)] else Decimal(n / 10) + [Digit(n % 10)]
  }

  /** `str(n)`. */
  function IntText(n: int): Bytes {
    if n < 0 then "-" + Decimal(-n) else Decimal(n)
  }

  /** The parser that inverts `Decimal`. */
  function ParseDecimal(s: Bytes): int {
    if s == "" then 0 else 10 * ParseDecimal(s[..|s| - 1]) + (s[|s| - 1] as int - '0' as int)
  }

  lemma {:induction false} DecimalParses(n: nat)
    ensures ParseDecimal(Decimal(n)) == n
    ensures Decimal(n) != "" && forall i :: 0 <= i < |Decimal(n)| ==> '0' <= Decimal(n)[i] <= '9'
  {
    if n >= 10 {
      DecimalParses(n / 10);
      assert Decimal(n)[..|Decimal(n)| - 1] == Decimal(n / 10);
    } else {
      assert Decimal(n)[..0] == "";
    }
  }

  lemma IntTextInjective(a: int, b: int)
    requires IntText(a) == IntText(b)
    ensures a == b
  {
    DecimalParses(if a < 0 then -a else a);
    DecimalParses(if b < 0 then -b else b);
    IntSign(a);
    IntSign(b);
    if a < 0 && b < 0 {
      assert IntText(a)[1..] == Decimal(-a) && IntText(b)[1..] == Decimal(-b);
    }
  }

  lemma IntSign(n: int)
    ensures IntText(n) != "" && (IntText(n)[0] == '-' <==> n < 0)
  {
    DecimalParses(if n < 0 then -n else n);
  }

  /** The bytes `hash_primitive` and `hash_bytes` digest: the type's name, a colon, the text. */
  function Tagged(v: Value): Bytes
    requires IsPrimitive(v)
  {
    match v
    case PyStr(s) => "str:" + s
    case PyInt(n) => "int:" + IntText(n)
    case PyBool(b) => "bool:" + if b then "True" else "False"
    case PyBytes(s) => "bytes:" + s
    case PyFloat(s) => "float:" + s
  }

  lemma TaggedInjective(a: Value, b: Value)
    requires IsPrimitive(a) && IsPrimitive(b)
    requires Tagged(a) == Tagged(b)
    ensures a == b
  {
    assert Tagged(a)[0] == Tagged(b)[0] && Tagged(a)[1] == Tagged(b)[1];
    match a {
      case PyStr(s) => assert Tagged(a)[4..] == s && Tagged(b)[4..] == b.utf8;
      case PyInt(n) =>
        assert Tagged(a)[4..] == IntText(n) && Tagged(b)[4..] == IntText(b.number);
        IntTextInjective(n, b.number);
      case PyBool(t) => assert Tagged(a)[5] == if t then 'T' else 'F';
        assert Tagged(b)[5] == if b.flag then 'T' else 'F';
      case PyBytes(s) => assert Tagged(a)[6..] == s && Tagged(b)[6..] == b.bytes;
      case PyFloat(s) => assert Tagged(a)[6..] == s && Tagged(b)[6..] == b.text;
    }
  }

  lemma TaggedHasColon(v: Value)
    requires IsPrimitive(v)
    ensures ':' in Tagged(v)
  {
    match v
    case PyStr(_) => assert Tagged(v)[3] == ':';
    case PyInt(_) => assert Tagged(v)[3] == ':';
    case PyBool(_) => assert Tagged(v)[4] == ':';
    case PyBytes(_) => assert Tagged(v)[5] == ':';
    case PyFloat(_) => assert Tagged(v)[5] == ':';
  }

  // ---------------------------------------------------------------- the fingerprint

  /** The texts that are digested: the type's name, a colon, and the value as Python prints it. */
  lemma TaggedTexts(s: Bytes)
    ensures Tagged(PyStr(s)) == "str:" + s && Tagged(PyBytes(s)) == "bytes:" + s && Tagged(PyFloat(s)) == "float:" + s
    ensures Tagged(PyBool(true)) == "bool:True" && Tagged(PyBool(false)) == "bool:False"
    ensures Tagged(PyInt(-120)) == "int:-120"
  {
    assert Decimal(1) == "1" && Decimal(12) == "12" && Decimal(120) == "120";
  }

  function Concat(parts: seq<string>): string {
    if parts == [] then "" else parts[0] + Concat(parts[1..])
  }

  /** `hash_value`. */
  function HashValue(h: Hasher, v: Value): string {
    match v
    case PyNone => NONE_HASH
    case PyOpaque(_) => UNHASHABLE
    case PySeq(items) => h.digest(Concat(HashItems(h, items)))
    case _ => h.digest(Tagged(v))
  }

  function HashItems(h: Hasher, items: seq<Value>): seq<string> {
    if items == [] then [] else [HashValue(h, items[0])] + HashItems(h, items[1..])
  }

  /** What a fingerprint looks like. */
  predicate IsPart(s: string) {
    s == NONE_HASH || s == UNHASHABLE || IsDigest(s)
  }

  predicate AllParts(parts: seq<string>) {
    forall i :: 0 <= i < |parts| ==> IsPart(parts[i])
  }

  lemma HashIsPart(h: Hasher, v: Value)
    requires h.Valid()
    ensures IsPart(HashValue(h, v))
    ensures HashValue(h, v) == UNHASHABLE <==> v.PyOpaque?
    ensures HashValue(h, v) == NONE_HASH <==> v.PyNone?
  {
    assert !IsBase64('<');
  }

  lemma HashItemsParts(h: Hasher, items: seq<Value>)
    requires h.Valid()
    ensures |HashItems(h, items)| == |items| && AllParts(HashItems(h, items))
    ensures forall i :: 0 <= i < |items| ==> HashItems(h, items)[i] == HashValue(h, items[i])
  {
    if items != [] {
      HashIsPart(h, items[0]);
      HashItemsParts(h, items[1..]);
    }
  }

  /** How a part begins says which kind it is. */
  lemma PartFirst(p: string)
    requires IsPart(p)
    ensures |p| >= 2
    ensures p[0] != '<' <==> IsDigest(p)
    ensures p == NONE_HASH <==> p[0] == '<' && p[1] == 'n'
    ensures p == UNHASHABLE <==> p[0] == '<' && p[1] == 'u'
  {
    assert !IsBase64('<');
    assert NONE_HASH[1] == 'n' && UNHASHABLE[1] == 'u';
  }

  /** Two parts that begin the same text are of one length: a digest ends at the first padding. */
  lemma SameFirstPart(p: string, q: string, text: string)
    requires IsPart(p) && IsPart(q) && p <= text && q <= text
    ensures p == q
  {
    PartFirst(p);
    PartFirst(q);
    assert p[0] == text[0] == q[0] && p[1] == text[1] == q[1];
    if IsDigest(p) {
      PaddingAt(p, text);
      PaddingAt(q, text);
    }
    assert |p| == |q|;
  }

  lemma PaddingAt(p: string, text: string)
    requires IsDigest(p) && p <= text
    ensures text[|p| - 2] == '=' && forall i :: 0 <= i < |p| - 2 ==> text[i] != '='
  {
    assert p[|p| - 2..][0] == p[|p| - 2];
    forall i | 0 <= i < |p| - 2 ensures text[i] != '=' {
      assert text[i] == p[i];
    }
  }

  /** Concatenated fingerprints decode uniquely. */
  lemma {:induction false} ConcatInjective(a: seq<string>, b: seq<string>)
    requires AllParts(a) && AllParts(b) && Concat(a) == Concat(b)
    ensures a == b
  {
    if a != [] { PartFirst(a[0]); }
    if b != [] { PartFirst(b[0]); }
    hide IsPart;
    if a != [] && b != [] {
      SameFirstPart(a[0], b[0], Concat(a));
      assert Concat(a)[|a[0]|..] == Concat(a[1..]) && Concat(b)[|b[0]|..] == Concat(b[1..]);
      ConcatInjective(a[1..], b[1..]);
      assert a == [a[0]] + a[1..] && b == [b[0]] + b[1..];
    }
  }

  lemma PartHasNoColon(p: string)
    requires IsPart(p)
    ensures ':' !in p
  {
    if IsDigest(p) {
      assert p == p[..|p| - 2] + p[|p| - 2..];
    }
  }

  lemma {:induction false} ConcatHasNoColon(parts: seq<string>)
    requires AllParts(parts)
    ensures ':' !in Concat(parts)
  {
    if parts != [] {
      PartHasNoColon(parts[0]);
      ConcatHasNoColon(parts[1..]);
    }
  }

  // ---------------------------------------------------------------- exactly what it tells apart

  /** The value with the objects that have no fingerprint made one. */
  function Erase(v: Value): Value {
    match v
    case PyOpaque(_) => PyOpaque(0)
    case PySeq(items) => PySeq(EraseItems(items))
    case _ => v
  }

  function EraseItems(items: seq<Value>): (erased: seq<Value>)
    ensures |erased| == |items| && forall i :: 0 <= i < |items| ==> erased[i] == Erase(items[i])
  {
    if items == [] then [] else [Erase(items[0])] + EraseItems(items[1..])
  }

  /** No object without fingerprint in it. */
  predicate Transparent(v: Value) {
    match v
    case PyOpaque(_) => false
    case PySeq(items) => forall i :: 0 <= i < |items| ==> Transparent(items[i])
    case _ => true
  }

  /**
   * Two values have the same fingerprint exactly when they are the same up to which objects without
   * fingerprint they hold.
   */
  lemma {:induction false} FingerprintExact(h: Hasher, a: Value, b: Value)
    requires h.Valid()
    ensures HashValue(h, a) == HashValue(h, b) <==> Erase(a) == Erase(b)
    decreases a
  {
    HashIsPart(h, a);
    HashIsPart(h, b);
    if a.PySeq? && b.PySeq? {
      SequencesExact(h, a.items, b.items);
    } else if a.PySeq? {
      if IsPrimitive(b) { SequenceIsNoPrimitive(h, a.items, b); }
    } else if b.PySeq? {
      if IsPrimitive(a) { SequenceIsNoPrimitive(h, b.items, a); }
    } else if IsPrimitive(a) && IsPrimitive(b) && HashValue(h, a) == HashValue(h, b) {
      TaggedInjective(a, b);
    }
  }

  lemma {:induction false} SequencesExact(h: Hasher, a: seq<Value>, b: seq<Value>)
    requires h.Valid()
    ensures HashValue(h, PySeq(a)) == HashValue(h, PySeq(b)) <==> EraseItems(a) == EraseItems(b)
    decreases a
  {
    HashItemsParts(h, a);
    HashItemsParts(h, b);
    if HashValue(h, PySeq(a)) == HashValue(h, PySeq(b)) {
      ConcatInjective(HashItems(h, a), HashItems(h, b));
    }
    if |a| == |b| {
      forall i | 0 <= i < |a|
        ensures HashItems(h, a)[i] == HashItems(h, b)[i] <==> EraseItems(a)[i] == EraseItems(b)[i]
      {
        FingerprintExact(h, a[i], b[i]);
      }
      if EraseItems(a) == EraseItems(b) {
        assert HashItems(h, a) == HashItems(h, b);
      } else {
        var i :| 0 <= i < |a| && EraseItems(a)[i] != EraseItems(b)[i];
        assert HashItems(h, a)[i] != HashItems(h, b)[i];
      }
    }
  }

  lemma SequenceIsNoPrimitive(h: Hasher, items: seq<Value>, v: Value)
    requires h.Valid() && IsPrimitive(v)
    ensures HashValue(h, PySeq(items)) != HashValue(h, v)
  {
    HashItemsParts(h, items);
    ConcatHasNoColon(HashItems(h, items));
    TaggedHasColon(v);
  }

  lemma {:induction false} EraseOnce(v: Value)
    ensures Erase(Erase(v)) == Erase(v)
    ensures Transparent(Erase(v)) <==> Transparent(v)
  {
    if v.PySeq? {
      forall i | 0 <= i < |v.items|
        ensures Erase(Erase(v.items[i])) == Erase(v.items[i])
        ensures Transparent(Erase(v.items[i])) <==> Transparent(v.items[i])
      {
        EraseOnce(v.items[i]);
      }
      assert EraseItems(EraseItems(v.items)) == EraseItems(v.items);
    }
  }

  lemma {:induction false} TransparentIsErased(v: Value)
    requires Transparent(v)
    ensures Erase(v) == v
  {
    if v.PySeq? {
      forall i | 0 <= i < |v.items| ensures Erase(v.items[i]) == v.items[i] {
        TransparentIsErased(v.items[i]);
      }
      assert EraseItems(v.items) == v.items;
    }
  }

  /** The same value with other objects in the places of those without fingerprint. */
  function Swap(v: Value): Value {
    match v
    case PyOpaque(id) => PyOpaque(id + 1)
    case PySeq(items) => PySeq(SwapItems(items))
    case _ => v
  }

  function SwapItems(items: seq<Value>): (swapped: seq<Value>)
    ensures |swapped| == |items| && forall i :: 0 <= i < |items| ==> swapped[i] == Swap(items[i])
  {
    if items == [] then [] else [Swap(items[0])] + SwapItems(items[1..])
  }

  lemma {:induction false} SwapErases(v: Value)
    ensures Erase(Swap(v)) == Erase(v)
    ensures Swap(v) == v ==> Transparent(v)
  {
    if v.PySeq? {
      forall i | 0 <= i < |v.items|
        ensures Erase(Swap(v.items[i])) == Erase(v.items[i])
        ensures Swap(v.items[i]) == v.items[i] ==> Transparent(v.items[i])
      {
        SwapErases(v.items[i]);
      }
      assert EraseItems(SwapItems(v.items)) == EraseItems(v.items);
    }
  }

  /** A fingerprint belongs to one value exactly when that value holds no object without fingerprint. */
  lemma {:induction false} FingerprintDetermines(h: Hasher, v: Value)
    requires h.Valid()
    ensures (forall u :: HashValue(h, u) == HashValue(h, v) ==> u == v) <==> Transparent(v)
  {
    hide Hasher.Valid, HashValue, Erase, Transparent;
    if Transparent(v) {
      forall u | HashValue(h, u) == HashValue(h, v) ensures u == v {
        FingerprintInjective(h, u, v);
      }
    } else {
      SwapErases(v);
      FingerprintExact(h, Swap(v), v);
    }
  }

  /** So equal fingerprints mean equal values if one of the two is such a value. */
  lemma FingerprintInjective(h: Hasher, a: Value, b: Value)
    requires h.Valid() && HashValue(h, a) == HashValue(h, b) && Transparent(b)
    ensures a == b
  {
    hide Hasher.Valid, HashValue, Erase, Transparent;
    FingerprintExact(h, a, b);
    EraseOnce(a);
    EraseOnce(b);
    TransparentIsErased(a);
    TransparentIsErased(b);
  }

  // ---------------------------------------------------------------- collected items

  function Texts(versions: seq<string>): seq<Value> {
    if versions == [] then [] else [PyStr(versions[0])] + Texts(versions[1..])
  }

  /** The version of a COLLECT node's collected argument, from the versions of its items. */
  function CollectVersion(h: Hasher, versions: seq<string>): string {
    HashValue(h, PySeq(Texts(Sort(StringLeq, versions))))
  }

  lemma {:induction false} TextsInjective(a: seq<string>, b: seq<string>)
    requires Texts(a) == Texts(b)
    ensures a == b
  {
    if a != [] && b != [] {
      assert Texts(a)[0] == Texts(b)[0] && Texts(a)[1..] == Texts(a[1..]) && Texts(b)[1..] == Texts(b[1..]);
      TextsInjective(a[1..], b[1..]);
      assert a == [a[0]] + a[1..] && b == [b[0]] + b[1..];
    }
  }

  lemma TextsAreTransparent(versions: seq<string>)
    ensures Transparent(PySeq(Texts(versions)))
  {}

  /** It identifies the items that arrived, and nothing about the order they arrived in. */
  lemma CollectVersionIdentity(h: Hasher, a: seq<string>, b: seq<string>)
    requires h.Valid()
    ensures CollectVersion(h, a) == CollectVersion(h, b) <==> multiset(a) == multiset(b)
  {
    StringOrder();
    if multiset(a) == multiset(b) {
      SortCanonical(StringLeq, a, b);
    }
    if CollectVersion(h, a) == CollectVersion(h, b) {
      TextsAreTransparent(Sort(StringLeq, b));
      FingerprintInjective(h, PySeq(Texts(Sort(StringLeq, a))), PySeq(Texts(Sort(StringLeq, b))));
      TextsInjective(Sort(StringLeq, a), Sort(StringLeq, b));
      SortCorrect(StringLeq, a);
      SortCorrect(StringLeq, b);
    }
  }
}
