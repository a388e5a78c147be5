/**
 * Label sets and their canonical text form (`labels.String` in src/main.go).
 * Each entry is written as `key="value"`, the written entries are sorted as
 * whole strings and joined with commas. Nothing is escaped.
 */
module Labels {
  import opened Lex
  import opened Text

  type Labels = map<string, string>

  /** One entry as written by the `%s="%s"` format: quotes and commas inside key or value stay as they are. */
  function Render(k: string, v: string): (r: string)
    ensures |r| == |k| + |v| + 3
  {
    k + "=\"" + v + "\""
  }

  /** The written entry reads back as the key, `="`, the value and a closing quote. */
  lemma RenderParts(k: string, v: string)
    ensures Render(k, v)[..|k|] == k
    ensures Render(k, v)[|k|..|k| + 2] == "=\""
    ensures Render(k, v)[|k| + 2..|k| + 2 + |v|] == v
    ensures Render(k, v)[|k| + 2 + |v|..] == "\""
  {
  }

  ghost function PickKey(keys: set<string>): (k: string)
    requires keys != {}
    ensures k in keys
  {
    var k :| k in keys; k
  }

  /**
   * The written entries of the keys `keys` of `l`, one per key. A multiset and
   * not a set: since nothing is escaped, two different entries can be written
   * the same way.
   */
  ghost function PairsOf(l: Labels, keys: set<string>): multiset<string>
    requires keys <= l.Keys
    decreases keys
  {
    if keys == {} then multiset{}
    else
      var k := PickKey(keys);
      multiset{Render(k, l[k])} + PairsOf(l, keys - {k})
  }

  /** The written entries of the whole map. */
  ghost function Pairs(l: Labels): multiset<string>
  {
    PairsOf(l, l.Keys)
  }

  /** Whichever key is taken out first, the written entries are the same. */
  lemma {:induction false} PairsOfRemove(l: Labels, keys: set<string>, k: string)
    requires keys <= l.Keys && k in keys
    ensures PairsOf(l, keys) == multiset{Render(k, l[k])} + PairsOf(l, keys - {k})
    decreases keys
  {
    var j := PickKey(keys);
    if j != k {
      var withoutJ, withoutK := keys - {j}, keys - {k};
      assert PairsOf(l, keys) == multiset{Render(j, l[j])} + PairsOf(l, withoutJ);
      PairsOfRemove(l, withoutJ, k);
      PairsOfRemove(l, withoutK, j);
      assert withoutJ - {k} == withoutK - {j};
    }
  }

  /** One written entry per key. */
  lemma {:induction false} PairsOfSize(l: Labels, keys: set<string>)
    requires keys <= l.Keys
    ensures |PairsOf(l, keys)| == |keys|
    decreases keys
  {
    if keys != {} {
      PairsOfSize(l, keys - {PickKey(keys)});
    }
  }

  /** Every written entry comes from an entry of the map. */
  lemma {:induction false} PairsOfFromEntries(l: Labels, keys: set<string>, x: string)
    requires keys <= l.Keys && x in PairsOf(l, keys)
    ensures exists k :: k in keys && x == Render(k, l[k])
    decreases keys
  {
    var k := PickKey(keys);
    if x != Render(k, l[k]) {
      PairsOfFromEntries(l, keys - {k}, x);
    }
  }

  /**
   * The canonical label string: the written entries in sorted order, joined by
   * commas. It depends on the entries of the map alone.
   */
  ghost function Canonical(l: Labels): (s: string)
    ensures s == "" <==> |l| == 0
  {
    var parts := SortedOf(Pairs(l));
    PairsOfSize(l, l.Keys);
    assert |parts| == |multiset(parts)| == |l|;
    if |parts| == 0 then ""
    else
      assert parts[0] in multiset(parts);
      PairsOfFromEntries(l, l.Keys, parts[0]);
      Join(parts, ",")
  }

  /** Any sorted arrangement of the written entries joins to the canonical string. */
  lemma CanonicalOf(l: Labels, parts: seq<string>)
    requires Sorted(parts) && multiset(parts) == Pairs(l)
    ensures Canonical(l) == Join(parts, ",")
  {
    SortedUnique(parts, SortedOf(Pairs(l)));
  }

  lemma CanonicalEmpty()
    ensures Canonical(map[]) == ""
  {
  }

  /**
   * When no key or value holds a comma, the canonical string splits back into
   * exactly one written entry per map entry, in sorted order.
   */
  lemma CanonicalSplit(l: Labels)
    requires |l| > 0
    requires forall k :: k in l ==> ',' !in k && ',' !in l[k]
    ensures Sorted(Split(Canonical(l), ','))
    ensures multiset(Split(Canonical(l), ',')) == Pairs(l)
    ensures |Split(Canonical(l), ',')| == |l|
  {
    var parts := SortedOf(Pairs(l));
    PairsOfSize(l, l.Keys);
    assert |parts| == |multiset(parts)| == |l|;
    forall p | p in parts ensures ',' !in p {
      assert p in multiset(parts);
      PairsOfFromEntries(l, l.Keys, p);
    }
    SplitJoin(parts, ',');
  }

  /** The entries written in the order `keys` lists them. */
  function Rendered(l: Labels, keys: seq<string>): (r: seq<string>)
    requires forall k :: k in keys ==> k in l
    ensures |r| == |keys|
  {
    if keys == [] then [] else [Render(keys[0], l[keys[0]])] + Rendered(l, keys[1..])
  }

  /** Writing the entries in any order that lists each key at most once yields the written entries of the keys listed. */
  lemma {:induction false} RenderedPairs(l: Labels, keys: seq<string>)
    requires forall k :: k in keys ==> k in l
    requires forall i, j :: 0 <= i < j < |keys| ==> keys[i] != keys[j]
    ensures multiset(Rendered(l, keys)) == PairsOf(l, set k | k in keys)
  {
    if keys != [] {
      var listed, rest := set k | k in keys, set k | k in keys[1..];
      assert listed - {keys[0]} == rest by {
        forall x | x in rest ensures x != keys[0] {
          var i :| 0 <= i < |keys[1..]| && keys[1..][i] == x;
          assert keys[i + 1] == x;
        }
      }
      RenderedPairs(l, keys[1..]);
      PairsOfRemove(l, listed, keys[0]);
    }
  }

  /**
   * Order independence: whatever order the map is walked in, sorting what was
   * written and joining it gives the canonical string.
   */
  lemma CanonicalAnyOrder(l: Labels, keys: seq<string>, parts: seq<string>)
    requires (set k | k in keys) == l.Keys
    requires forall i, j :: 0 <= i < j < |keys| ==> keys[i] != keys[j]
    requires Sorted(parts) && multiset(parts) == multiset(Rendered(l, keys))
    ensures Join(parts, ",") == Canonical(l)
  {
    RenderedPairs(l, keys);
    CanonicalOf(l, parts);
  }

  /**
   * `labels.String`: walks the map in an unspecified order, appending each
   * written entry to a slice, sorts the slice in place and joins it with
   * commas.
   */
  method Format(l: Labels) returns (s: string)
    ensures s == Canonical(l)
  {
    var entries: seq<string> := [];
    var rest := l.Keys;
    while rest != {}
      invariant rest <= l.Keys
      invariant multiset(entries) + PairsOf(l, rest) == Pairs(l)
    {
      var k :| k in rest;
      PairsOfRemove(l, rest, k);
      entries := entries + [Render(k, l[k])];
      rest := rest - {k};
    }
    var slice := new string[|entries|](i requires 0 <= i < |entries| => entries[i]);
    assert slice[..] == entries;
    SortStrings(slice);
    CanonicalOf(l, slice[..]);
    s := Join(slice[..], ",");
  }

  lemma PairsOne(k: string, v: string)
    ensures Pairs(map[k := v]) == multiset{Render(k, v)}
  {
    assert map[k := v].Keys == {k} && {k} - {k} == {};
    PairsOfRemove(map[k := v], {k}, k);
  }

  lemma PairsTwo(k1: string, v1: string, k2: string, v2: string)
    requires k1 != k2
    ensures Pairs(map[k1 := v1, k2 := v2]) == multiset{Render(k1, v1), Render(k2, v2)}
  {
    var l := map[k1 := v1, k2 := v2];
    assert l.Keys == {k1, k2} && {k1, k2} - {k1} == {k2};
    PairsOfRemove(l, {k1, k2}, k1);
    PairsOfRemove(l, {k2}, k2);
  }

  /** A common prefix does not change the order. */
  lemma {:induction false} LexLeCommonPrefix(p: string, a: string, b: string)
    requires LexLe(a, b)
    ensures LexLe(p + a, p + b)
  {
    if |p| > 0 {
      LexLeCommonPrefix(p[1..], a, b);
      assert (p + a)[1..] == p[1..] + a && (p + b)[1..] == p[1..] + b;
    } else {
      assert p + a == a && p + b == b;
    }
  }

  /**
   * The sort is on the whole written entry, not on the key. A key `k` sorts
   * before the longer key `k + [c]`, yet when `c` comes before `=` (a digit,
   * `-`, `.`, ...) the longer key's entry is written first: with the labels
   * `a="1"` and `a0="2"` the canonical string is `a0="2",a="1"`.
   */
  lemma PairOrderIsNotKeyOrder(k: string, c: char, v: string, v': string)
    requires c < '='
    ensures LexLe(k, k + [c]) && k != k + [c]
    ensures Canonical(map[k := v, k + [c] := v']) == Render(k + [c], v') + "," + Render(k, v)
  {
    var longer := k + [c];
    assert LexLe(k, longer) by {
      LexLeCommonPrefix(k, [], [c]);
      assert k + [] == k;
    }
    assert |longer| != |k|;
    var first, second := Render(longer, v'), Render(k, v);
    assert first == k + ([c] + "=\"" + v' + "\"");
    assert second == k + ("=\"" + v + "\"");
    LexLeCommonPrefix(k, [c] + "=\"" + v' + "\"", "=\"" + v + "\"");
    PairsTwo(k, v, longer, v');
    CanonicalOf(map[k := v, longer := v'], [first, second]);
  }

  /** A value that ends in `",k2="v2` writes the same text as two entries joined by a comma. */
  lemma RenderSuffix(k1: string, v1: string, k2: string, v2: string)
    ensures Render(k1, v1 + "\"," + k2 + "=\"" + v2) == Render(k1, v1) + "," + Render(k2, v2)
  {
    var quote, comma, opening := "\"", ",", "=\"";
    assert "\"," == quote + comma;
    calc {
      Render(k1, v1 + "\"," + k2 + "=\"" + v2);
      k1 + opening + (v1 + (quote + comma) + k2 + opening + v2) + quote;
      (k1 + opening + v1 + quote) + comma + (k2 + opening + v2 + quote);
    }
  }

  /**
   * Because nothing is escaped, different label sets can have the same
   * canonical string: a single label whose value ends in `",k2="v2` reads
   * exactly like a second label `k2="v2"`.
   */
  lemma UnescapedLabelsCollide(k1: string, v1: string, k2: string, v2: string)
    requires k1 != k2
    requires LexLe(Render(k1, v1), Render(k2, v2))
    ensures Canonical(map[k1 := v1 + "\"," + k2 + "=\"" + v2]) == Canonical(map[k1 := v1, k2 := v2])
    ensures map[k1 := v1 + "\"," + k2 + "=\"" + v2] != map[k1 := v1, k2 := v2]
  {
    var joined := Render(k1, v1) + "," + Render(k2, v2);
    PairsTwo(k1, v1, k2, v2);
    CanonicalOf(map[k1 := v1, k2 := v2], [Render(k1, v1), Render(k2, v2)]);
    RenderSuffix(k1, v1, k2, v2);
    PairsOne(k1, v1 + "\"," + k2 + "=\"" + v2);
    CanonicalOf(map[k1 := v1 + "\"," + k2 + "=\"" + v2], [joined]);
    assert k2 !in map[k1 := v1 + "\"," + k2 + "=\"" + v2];
  }
}
