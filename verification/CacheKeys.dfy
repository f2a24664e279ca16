/** hamilton/caching/cache_key.py: the text form of a cache key and its inverse. */
module CacheKeys {
  import opened Prelude
  import opened Sorting

  /** What cache_key.py takes from Python: character classes and zlib + base64. */
  datatype Platform = Platform(
    isAlnum: char -> bool,
    isSpace: char -> bool,
    compress: string -> string,
    decompress: string -> Option<string>)
  {
    ghost predicate Valid() {
      && !isAlnum('-')
      && !isSpace('_')
      && (forall c :: isAlnum(c) ==> !isSpace(c))
      && (forall s :: decompress(compress(s)) == Some(s))
    }
  }

  /** ASCII letters and digits, the blank, and no compression at all. */
  function PlainPlatform(): Platform {
    Platform(c => 'a' <= c <= 'z' || 'A' <= c <= 'Z' || '0' <= c <= '9', c => c == ' ', s => s, s => Some(s))
  }

  /** The assumption on the platform can be met. */
  lemma SomePlatformIsValid()
    ensures PlainPlatform().Valid()
  {}

  /** The dict `decode_key` returns. */
  datatype DecodedKey = DecodedKey(nodeName: string, codeVersion: string, dependencies: map<string, string>)

  const SEPARATOR := ','
  const DASH := '-'
  const NO_DEPENDENCIES := "<none>"

  // ---------------------------------------------------------------- encoding

  function Join(items: seq<string>): string {
    if items == [] then ""
    else if |items| == 1 then items[0]
    else items[0] + [SEPARATOR] + Join(items[1..])
  }

  function EncodeStrDict(d: Dict<string, string>): string {
    Join(Interleave(Sort(PairLeq, d)))
  }

  function KeepNameChars(p: Platform, name: string): string {
    if name == "" then ""
    else (if p.isAlnum(name[0]) || name[0] == '_' then [name[0]] else "") + KeepNameChars(p, name[1..])
  }

  function RStrip(p: Platform, s: string): string {
    if s != "" && p.isSpace(s[|s| - 1]) then RStrip(p, s[..|s| - 1]) else s
  }

  /** The node name as it appears in a key. */
  function SafeName(p: Platform, name: string): string {
    RStrip(p, KeepNameChars(p, name))
  }

  function Stringify(d: Dict<string, string>): string {
    if |d| > 0 then EncodeStrDict(d) else NO_DEPENDENCIES
  }

  function CreateCacheKey(p: Platform, name: string, code: string, d: Dict<string, string>): string {
    SafeName(p, name) + [DASH] + code + [DASH] + p.compress(Stringify(d))
  }

  // ---------------------------------------------------------------- decoding

  /** `s.partition(sep)`, separator dropped. */
  function Partition(s: string, sep: char): (string, string) {
    if s == "" then ("", "")
    else if s[0] == sep then ("", s[1..])
    else var (head, tail) := Partition(s[1..], sep); ([s[0]] + head, tail)
  }

  function Split(s: string): seq<string> {
    if s == "" then [""]
    else
      var rest := Split(s[1..]);
      if s[0] == SEPARATOR then [""] + rest
      else if rest == [] then [s] else [[s[0]] + rest[0]] + rest[1..]
  }

  /** The dict built from an interleaved tuple; None stands for the IndexError on an odd length. */
  function PairUp(items: seq<string>): Option<map<string, string>> {
    if |items| % 2 == 1 then None
    else if items == [] then Some(map[])
    else
      var n := |items|;
      match PairUp(items[..n - 2])
      case None => None
      case Some(m) => Some(m[items[n - 2] := items[n - 1]])
  }

  /** The index loop of `_decode_str_dict`. */
  method DecodeStrDict(s: string) returns (r: Option<map<string, string>>)
    ensures r == PairUp(Split(s))
  {
    var items := Split(s);
    var d: map<string, string> := map[];
    var i := 0;
    while i < |items|
      invariant 0 <= i && i % 2 == 0 && i <= |items|
      invariant PairUp(items[..i]) == Some(d)
      decreases |items| - i
    {
      if i + 1 >= |items| {
        assert items[..|items|] == items;
        return None;
      }
      d := d[items[i] := items[i + 1]];
      assert items[..i + 2][..i] == items[..i];
      i := i + 2;
    }
    assert items[..i] == items;
    r := Some(d);
  }

  function DecodeKey(p: Platform, key: string): Option<DecodedKey> {
    var (nodeName, rest) := Partition(key, DASH);
    var (code, encoded) := Partition(rest, DASH);
    match p.decompress(encoded)
    case None => None
    case Some(data) =>
      if data == NO_DEPENDENCIES then Some(DecodedKey(nodeName, code, map[]))
      else
        match PairUp(Split(data))
        case None => None
        case Some(m) => Some(DecodedKey(nodeName, code, m))
  }

  // ---------------------------------------------------------------- when a key can be read back

  predicate CommaFree(s: string) { SEPARATOR !in s }

  predicate CleanDependencies(d: Dict<string, string>) {
    forall i :: 0 <= i < |d| ==> CommaFree(d[i].0) && CommaFree(d[i].1)
  }

  predicate AllCommaFree(items: seq<string>) {
    forall i :: 0 <= i < |items| ==> CommaFree(items[i])
  }

  lemma PartitionAt(a: string, sep: char, b: string)
    requires sep !in a
    ensures Partition(a + [sep] + b, sep) == (a, b)
  {
    var s := a + [sep] + b;
    if a == "" {
      assert s[1..] == b;
    } else {
      assert s[1..] == a[1..] + [sep] + b;
      PartitionAt(a[1..], sep, b);
      assert [a[0]] + a[1..] == a;
    }
  }

  lemma PartitionFirst(s: string, sep: char)
    ensures sep !in Partition(s, sep).0
  {}

  lemma SafeNameChars(p: Platform, name: string)
    requires p.Valid()
    ensures SafeName(p, name) == KeepNameChars(p, name)
    ensures DASH !in SafeName(p, name)
  {
    KeptChars(p, name);
    var s := KeepNameChars(p, name);
    if s != "" {
      assert s[|s| - 1] in s;
    }
  }

  lemma KeptChars(p: Platform, name: string)
    ensures forall c :: c in KeepNameChars(p, name) ==> p.isAlnum(c) || c == '_'
  {}

  // ---------------------------------------------------------------- which names survive

  /** Letters, digits and underscores only. */
  predicate CleanName(p: Platform, name: string) {
    forall i :: 0 <= i < |name| ==> p.isAlnum(name[i]) || name[i] == '_'
  }

  lemma {:induction false} KeptConcat(p: Platform, a: string, b: string)
    ensures KeepNameChars(p, a + b) == KeepNameChars(p, a) + KeepNameChars(p, b)
  {
    if a == "" {
      assert a + b == b;
    } else {
      hide KeepNameChars;
      KeptNext(p, a);
      KeptNext(p, a + b);
      KeptConcat(p, a[1..], b);
      assert (a + b)[1..] == a[1..] + b && (a + b)[0] == a[0];
    }
  }

  lemma KeptNext(p: Platform, name: string)
    requires name != ""
    ensures KeepNameChars(p, name) ==
            (if p.isAlnum(name[0]) || name[0] == '_' then [name[0]] else "") + KeepNameChars(p, name[1..])
  {}

  /** A name is stripped piece by piece. */
  lemma {:induction false} SafeNameConcat(p: Platform, a: string, b: string)
    requires p.Valid()
    ensures SafeName(p, a + b) == SafeName(p, a) + SafeName(p, b)
  {
    SafeNameChars(p, a);
    SafeNameChars(p, b);
    SafeNameChars(p, a + b);
    KeptConcat(p, a, b);
  }

  /** And of a single character everything is kept or nothing. */
  lemma SafeNameOne(p: Platform, c: char)
    requires p.Valid()
    ensures SafeName(p, [c]) == if p.isAlnum(c) || c == '_' then [c] else ""
  {
    SafeNameChars(p, [c]);
    assert [c][1..] == "";
  }

  lemma {:induction false} KeptLength(p: Platform, name: string)
    ensures |KeepNameChars(p, name)| <= |name|
    ensures |KeepNameChars(p, name)| == |name| ==> KeepNameChars(p, name) == name
  {
    if name != "" {
      KeptLength(p, name[1..]);
    }
  }

  /** A name survives unchanged exactly if it is made of letters, digits and underscores. */
  lemma {:induction false} SafeNameIsName(p: Platform, name: string)
    requires p.Valid()
    ensures SafeName(p, name) == name <==> CleanName(p, name)
  {
    if name != "" {
      SafeNameIsName(p, name[1..]);
      assert name == [name[0]] + name[1..];
      SafeNameConcat(p, [name[0]], name[1..]);
      SafeNameOne(p, name[0]);
      SafeNameChars(p, name[1..]);
      KeptLength(p, name[1..]);
    }
  }

  lemma {:induction false} SplitNonEmpty(s: string)
    ensures Split(s) != [] && AllCommaFree(Split(s))
  {
    if s != "" {
      SplitNonEmpty(s[1..]);
      var rest := Split(s[1..]);
      assert CommaFree(rest[0]);
    }
  }

  lemma {:induction false} SplitWord(w: string)
    requires CommaFree(w)
    ensures Split(w) == [w]
  {
    if w != "" {
      SplitWord(w[1..]);
      assert [w[0]] + w[1..] == w;
    }
  }

  lemma {:induction false} SplitCons(w: string, s: string)
    requires CommaFree(w)
    ensures Split(w + [SEPARATOR] + s) == [w] + Split(s)
  {
    var t := w + [SEPARATOR] + s;
    SplitNonEmpty(s);
    if w == "" {
      assert t[1..] == s;
    } else {
      assert t[1..] == w[1..] + [SEPARATOR] + s;
      SplitCons(w[1..], s);
      assert [w[0]] + w[1..] == w;
    }
  }

  /** Splitting undoes joining, item by item. */
  lemma {:induction false} SplitJoin(items: seq<string>)
    requires items != [] && AllCommaFree(items)
    ensures Split(Join(items)) == items
  {
    if |items| == 1 {
      SplitWord(items[0]);
    } else {
      SplitJoin(items[1..]);
      SplitCons(items[0], Join(items[1..]));
    }
  }

  lemma {:induction false} PairUpInterleave(pairs: seq<(string, string)>)
    ensures PairUp(Interleave(pairs)) == Some(MapOf(pairs))
  {
    if pairs != [] {
      var n := |pairs| - 1;
      PairUpInterleave(pairs[..n]);
      InterleaveSnoc(pairs);
      assert Interleave(pairs)[..2 * n] == Interleave(pairs[..n]);
    }
  }

  lemma InterleaveCommaFree(pairs: seq<(string, string)>)
    ensures AllCommaFree(Interleave(pairs)) <==> CleanDependencies(pairs)
  {
    if pairs != [] {
      InterleaveCommaFree(pairs[1..]);
      var items := Interleave(pairs);
      assert items[2..] == Interleave(pairs[1..]);
      if AllCommaFree(items) {
        forall i | 0 <= i < |pairs[1..]| * 2 ensures CommaFree(items[2..][i]) { assert items[2..][i] == items[i + 2]; }
        assert CommaFree(items[0]) && CommaFree(items[1]);
        forall i | 0 <= i < |pairs| ensures CommaFree(pairs[i].0) && CommaFree(pairs[i].1) {
          if i > 0 { assert pairs[1..][i - 1] == pairs[i]; }
        }
      }
      if CleanDependencies(pairs) {
        assert CleanDependencies(pairs[1..]);
        forall i | 0 <= i < |items| ensures CommaFree(items[i]) {
          if i >= 2 { assert items[2..][i - 2] == items[i]; }
        }
      }
    }
  }

  /** Sorting the items changes neither the mapping nor the set of strings it is made of. */
  lemma SortedItems(d: Dict<string, string>)
    requires DistinctKeys(d)
    ensures var s := Sort(PairLeq, d);
            DistinctKeys(s) && MapOf(s) == MapOf(d) && |s| == |d| && (CleanDependencies(s) <==> CleanDependencies(d))
  {
    var s := Sort(PairLeq, d);
    PairOrder();
    SortCorrect(PairLeq, d);
    assert |multiset(s)| == |multiset(d)|;
    forall i, j | 0 <= i < j < |s| ensures s[i].0 != s[j].0 {
      if s[i].0 == s[j].0 {
        TwoOccurrences(s, i, j);
        assert s[i] in multiset(s) && s[j] in multiset(s);
        assert s[i] in d && s[j] in d;
        MapOfAll(d);
        assert s[i] == s[j];
        PairCount(d, s[i]);
        assert false;
      }
    }
    SameMapSameItems(s, d);
    SameMembers(s, d);
    SameMembers(d, s);
  }

  lemma TwoOccurrences<T>(s: seq<T>, i: nat, j: nat)
    requires i < j < |s|
    ensures s[i] == s[j] ==> multiset(s)[s[i]] >= 2
  {
    assert s == s[..j] + [s[j]] + s[j + 1..];
    assert s[..j][i] == s[i];
    assert s[i] in multiset(s[..j]);
  }

  lemma SameMembers(s: seq<(string, string)>, d: seq<(string, string)>)
    requires multiset(s) == multiset(d)
    ensures CleanDependencies(s) ==> CleanDependencies(d)
  {
    if CleanDependencies(s) {
      forall i | 0 <= i < |d| ensures CommaFree(d[i].0) && CommaFree(d[i].1) {
        assert d[i] in multiset(s);
      }
    }
  }

  lemma JoinHasComma(items: seq<string>)
    requires |items| >= 2
    ensures SEPARATOR in Join(items)
  {
    var s := Join(items);
    assert s[|items[0]|] == SEPARATOR;
  }

  lemma StringifyDecodes(d: Dict<string, string>)
    requires DistinctKeys(d) && CleanDependencies(d) && d != []
    ensures Stringify(d) != NO_DEPENDENCIES
    ensures PairUp(Split(Stringify(d))) == Some(MapOf(d))
  {
    hide Split, Join, PairUp, Interleave, Sort, MapOf;
    SortedItems(d);
    var s := Sort(PairLeq, d);
    PairUpInterleave(s);
    InterleaveCommaFree(s);
    SplitJoin(Interleave(s));
    JoinHasComma(Interleave(s));
  }

  lemma {:induction false} PairUpCommaFree(items: seq<string>)
    requires AllCommaFree(items)
    ensures PairUp(items).Some? ==>
              forall k :: k in PairUp(items).value ==> CommaFree(k) && CommaFree(PairUp(items).value[k])
  {
    if |items| % 2 == 0 && items != [] {
      PairUpCommaFree(items[..|items| - 2]);
    }
  }

  /**
   * `decode_key` inverts `create_cache_key` exactly when the code version has no '-'
   * and no dependency name or version has a ','.
   */
  lemma RoundTrip(p: Platform, name: string, code: string, d: Dict<string, string>)
    requires p.Valid() && DistinctKeys(d)
    ensures DecodeKey(p, CreateCacheKey(p, name, code, d)) == Some(DecodedKey(SafeName(p, name), code, MapOf(d)))
       <==> DASH !in code && CleanDependencies(d)
  {
    var key := CreateCacheKey(p, name, code, d);
    var rest := code + [DASH] + p.compress(Stringify(d));
    SafeNameChars(p, name);
    assert key == SafeName(p, name) + [DASH] + rest;
    PartitionAt(SafeName(p, name), DASH, rest);
    if DASH in code {
      PartitionFirst(rest, DASH);
    } else {
      PartitionAt(code, DASH, p.compress(Stringify(d)));
      assert p.decompress(p.compress(Stringify(d))) == Some(Stringify(d));
      if CleanDependencies(d) {
        if d != [] {
          StringifyDecodes(d);
        }
      } else {
        UncleanIsNotRecovered(d);
      }
    }
  }

  /** What is decoded is all that was encoded, name included, exactly when nothing of it had to go. */
  lemma {:induction false} FullRoundTrip(p: Platform, name: string, code: string, d: Dict<string, string>)
    requires p.Valid() && DistinctKeys(d)
    ensures DecodeKey(p, CreateCacheKey(p, name, code, d)) == Some(DecodedKey(name, code, MapOf(d)))
       <==> CleanName(p, name) && DASH !in code && CleanDependencies(d)
  {
    hide MapOf, Sort, Interleave, PairUp, Split, Stringify;
    RoundTrip(p, name, code, d);
    SafeNameIsName(p, name);
    var rest := code + [DASH] + p.compress(Stringify(d));
    assert CreateCacheKey(p, name, code, d) == SafeName(p, name) + [DASH] + rest;
    SafeNameChars(p, name);
    PartitionAt(SafeName(p, name), DASH, rest);
  }

  lemma UncleanIsNotRecovered(d: Dict<string, string>)
    requires DistinctKeys(d) && !CleanDependencies(d)
    ensures MapOf(d) != map[]
    ensures PairUp(Split(Stringify(d))) != Some(MapOf(d))
  {
    var i :| 0 <= i < |d| && !(CommaFree(d[i].0) && CommaFree(d[i].1));
    MapOfAll(d);
    assert d[i].0 in MapOf(d);
    SplitNonEmpty(Stringify(d));
    PairUpCommaFree(Split(Stringify(d)));
  }

  lemma {:induction false} SplitCount(s: string)
    ensures |Split(s)| == multiset(s)[SEPARATOR] + 1
  {
    if s != "" {
      SplitCount(s[1..]);
      assert s == [s[0]] + s[1..];
    }
  }

  lemma {:induction false} PairUpFails(items: seq<string>)
    ensures PairUp(items).None? <==> |items| % 2 == 1
  {
    if |items| % 2 == 0 && items != [] {
      PairUpFails(items[..|items| - 2]);
    }
  }

  /**
   * Exactly when a text of two dashes is no key: what follows them does not decompress, or it holds an even number of
   * commas, so that names and versions do not pair up.
   */
  lemma {:induction false} DecodeFails(p: Platform, name: string, code: string, encoded: string)
    requires DASH !in name && DASH !in code
    ensures DecodeKey(p, name + [DASH] + (code + [DASH] + encoded)).None? <==>
            match p.decompress(encoded)
            case None => true
            case Some(data) => data != "<none>" && multiset(data)[','] % 2 == 0
  {
    hide PairUp, Split;
    PartitionAt(name, DASH, code + [DASH] + encoded);
    PartitionAt(code, DASH, encoded);
    assert name + [DASH] + (code + [DASH] + encoded) == name + [DASH] + code + [DASH] + encoded;
    if p.decompress(encoded).Some? {
      SplitCount(p.decompress(encoded).value);
      PairUpFails(Split(p.decompress(encoded).value));
    }
  }

  /** Keys identify (stripped name, code version, dependency mapping), whatever the insertion order. */
  lemma KeyIdentity(p: Platform, name: string, code: string, d: Dict<string, string>,
                    name': string, code': string, d': Dict<string, string>)
    requires p.Valid() && DistinctKeys(d) && DistinctKeys(d')
    requires DASH !in code && DASH !in code' && CleanDependencies(d) && CleanDependencies(d')
    ensures CreateCacheKey(p, name, code, d) == CreateCacheKey(p, name', code', d')
       <==> SafeName(p, name) == SafeName(p, name') && code == code' && MapOf(d) == MapOf(d')
  {
    RoundTrip(p, name, code, d);
    RoundTrip(p, name', code', d');
    if MapOf(d) == MapOf(d') {
      SameMapSameItems(d, d');
      PairOrder();
      SortCanonical(PairLeq, d, d');
      assert |multiset(d)| == |d| && |multiset(d')| == |d'|;
    }
  }

  lemma EncodeOne(a: string, x: string)
    ensures EncodeStrDict([(a, x)]) == a + "," + x
  {
    var d := [(a, x)];
    assert d[1..] == [];
    assert Sort(PairLeq, d[1..]) == [];
    assert Sort(PairLeq, d) == d;
    assert Interleave(d) == [a, x];
    assert [a, x][1..] == [x];
    assert Join([x]) == x;
  }

  lemma EncodeTwo(a: string, x: string, b: string, y: string)
    requires PairLeq((a, x), (b, y))
    ensures EncodeStrDict([(a, x), (b, y)]) == a + "," + x + "," + b + "," + y
  {
    var d := [(a, x), (b, y)];
    assert d[1..] == [(b, y)] && d[1..][1..] == [];
    assert Sort(PairLeq, d[1..][1..]) == [];
    assert Sort(PairLeq, d[1..]) == d[1..];
    assert Sort(PairLeq, d) == Insert(PairLeq, d[0], d[1..]) == [d[0]] + d[1..] == d;
    assert Interleave(d) == [a, x, b, y];
    assert [a, x, b, y][1..] == [x, b, y] && [x, b, y][1..] == [b, y] && [b, y][1..] == [y];
    assert Join([b, y]) == b + "," + y;
    assert Join([x, b, y]) == x + "," + b + "," + y;
  }

  /** How keys read: without dependencies, with one, and with two, which stand in the order of their names. */
  lemma KeyText(p: Platform, name: string, code: string, a: string, x: string, b: string, y: string)
    requires StringLeq(a, b) && a != b
    ensures CreateCacheKey(p, name, code, []) == SafeName(p, name) + "-" + code + "-" + p.compress("<none>")
    ensures CreateCacheKey(p, name, code, [(a, x)]) == SafeName(p, name) + "-" + code + "-" + p.compress(a + "," + x)
    ensures CreateCacheKey(p, name, code, [(b, y), (a, x)]) == CreateCacheKey(p, name, code, [(a, x), (b, y)])
         == SafeName(p, name) + "-" + code + "-" + p.compress(a + "," + x + "," + b + "," + y)
  {
    EncodeOne(a, x);
    EncodeTwo(a, x, b, y);
    var d, e := [(a, x), (b, y)], [(b, y), (a, x)];
    assert multiset(d) == multiset(e);
    PairOrder();
    SortCanonical(PairLeq, d, e);
    assert [DASH] == "-";
    hide EncodeStrDict, SafeName;
  }

  /** A ',' inside a version lets two different dependency mappings share one key. */
  lemma CommaCollision(p: Platform, name: string, code: string)
    ensures exists d: Dict<string, string>, e: Dict<string, string> ::
              DistinctKeys(d) && DistinctKeys(e) && MapOf(d) != MapOf(e)
              && CreateCacheKey(p, name, code, d) == CreateCacheKey(p, name, code, e)
  {
    var d: Dict<string, string> := [("a", "x,b,y")];
    var e: Dict<string, string> := [("a", "x"), ("b", "y")];
    EncodeOne("a", "x,b,y");
    assert StringLeq("a", "b");
    EncodeTwo("a", "x", "b", "y");
    assert Stringify(d) == "a,x,b,y" == Stringify(e);
    assert DistinctKeys(d) && DistinctKeys(e);
    SameMapSameItems(d, e);
    assert |multiset(d)| != |multiset(e)|;
  }
}
