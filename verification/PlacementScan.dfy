/** The configuration check for top-level keys that a stray position has put inside a section. */
module PlacementScan {
  import opened Decimal

  /** A parsed TOML value; a table lists its bindings in iteration order. */
  datatype Toml = Scalar(text: string) | Array(items: seq<Toml>) | Table(entries: seq<Entry>)
  datatype Entry = Entry(key: string, value: Toml)

  const TOP_LEVEL_SCALAR_KEYS: seq<string> := [
    "bind", "bind_addr", "bind_port", "certificate", "tls_bind_port", "tls_client_auth", "tls_client_ca",
    "tokio_console", "stream_prune_grace_secs"]

  predicate RootOnly(key: string) { key in TOP_LEVEL_SCALAR_KEYS }

  /** One step down the document. */
  datatype Seg = Key(key: string) | Index(i: nat)

  /** A root-only key and the table it was found in. */
  datatype Finding = Finding(path: seq<Seg>, key: string)

  // ----- What counts as misplaced -----

  /** `key` is bound to a scalar in the table with these entries. */
  ghost predicate BindsScalar(es: seq<Entry>, key: string) {
    exists i :: 0 <= i < |es| && es[i].key == key && es[i].value.Scalar?
  }

  /**
   * Following `path` from a table, through tables and through arrays that hold tables directly, leads to a table
   * that binds the root-only `key` to a scalar.
   */
  ghost predicate Misplaced(es: seq<Entry>, path: seq<Seg>, key: string)
    decreases |path|, 0
  {
    if path == [] then RootOnly(key) && BindsScalar(es, key)
    else exists i :: 0 <= i < |es| && path[0] == Key(es[i].key) && MisplacedUnder(es[i].value, path[1..], key)
  }

  /** The same from the value of a binding. */
  ghost predicate MisplacedUnder(v: Toml, path: seq<Seg>, key: string)
    decreases |path|, 1
  {
    || (v.Table? && Misplaced(v.entries, path, key))
    || (v.Array? && path != [] && path[0].Index? && path[0].i < |v.items| && v.items[path[0].i].Table?
        && Misplaced(v.items[path[0].i].entries, path[1..], key))
  }

  // ----- The scan -----

  /** What the walk pushes for the table or array at `path`. */
  function Scan(path: seq<Seg>, v: Toml): seq<Finding>
    decreases v
  {
    match v
    case Scalar(_) => []
    case Array(items) => ScanItems(path, items)
    case Table(es) => ScanEntries(path, es)
  }

  function ScanEntries(path: seq<Seg>, es: seq<Entry>): seq<Finding>
    decreases es
  {
    if es == [] then []
    else
      var last := es[|es| - 1];
      ScanEntries(path, es[..|es| - 1])
      + if last.value.Scalar? then (if RootOnly(last.key) then [Finding(path, last.key)] else [])
        else Scan(path + [Key(last.key)], last.value)
  }

  function ScanItems(path: seq<Seg>, items: seq<Toml>): seq<Finding>
    decreases items
  {
    if items == [] then []
    else
      var n := |items| - 1;
      ScanItems(path, items[..n]) + if items[n].Table? then Scan(path + [Index(n)], items[n]) else []
  }

  /** The walk over the root's bindings; the root's own scalars are where they belong. */
  function ScanRoot(es: seq<Entry>): seq<Finding> {
    if es == [] then []
    else ScanRoot(es[..|es| - 1]) + Scan([Key(es[|es| - 1].key)], es[|es| - 1].value)
  }

  // ----- Sound and complete -----

  lemma {:induction false} ScanPaths(path: seq<Seg>, v: Toml, f: Finding)
    requires f in Scan(path, v)
    ensures path <= f.path
    decreases v
  {
    match v
    case Array(items) => var j := ItemsOrigin(path, items, f);
    case Table(es) => var j := EntriesOrigin(path, es, f);
  }

  /** `f` is the binding of `key` itself in the table at `path`, or lies below that binding. */
  predicate TaggedBy(path: seq<Seg>, key: string, f: Finding) {
    f == Finding(path, key) || (|path| < |f.path| && f.path[|path|] == Key(key))
  }

  /** Every finding below a table comes from one of its bindings and says so in its path. */
  lemma {:induction false} EntriesOrigin(path: seq<Seg>, es: seq<Entry>, f: Finding) returns (j: nat)
    requires f in ScanEntries(path, es)
    ensures j < |es| && path <= f.path
    ensures TaggedBy(path, es[j].key, f)
    decreases es
  {
    var n := |es| - 1;
    if f in ScanEntries(path, es[..n]) {
      j := EntriesOrigin(path, es[..n], f);
    } else {
      j := n;
      if !es[n].value.Scalar? {
        ScanPaths(path + [Key(es[n].key)], es[n].value, f);
        assert path <= path + [Key(es[n].key)];
      }
    }
  }

  lemma {:induction false} ItemsOrigin(path: seq<Seg>, items: seq<Toml>, f: Finding) returns (j: nat)
    requires f in ScanItems(path, items)
    ensures j < |items| && path <= f.path && path + [Index(j)] <= f.path
    decreases items
  {
    var n := |items| - 1;
    if f in ScanItems(path, items[..n]) {
      j := ItemsOrigin(path, items[..n], f);
    } else {
      j := n;
      ScanPaths(path + [Index(n)], items[n], f);
      assert path <= path + [Index(n)];
    }
  }

  /** A scan below `path` reports exactly the misplaced keys there, with their full paths. */
  lemma {:induction false} ScanExact(path: seq<Seg>, v: Toml, rest: seq<Seg>, key: string)
    ensures Finding(path + rest, key) in Scan(path, v) <==> MisplacedUnder(v, rest, key)
    decreases v, 0
  {
    match v
    case Scalar(_) =>
    case Array(items) => ItemsExact(path, items, rest, key);
    case Table(es) => EntriesExact(path, es, rest, key);
  }

  /** One step down: the scan of the value reached by `seg` sees exactly the paths that begin with it. */
  lemma {:induction false} StepExact(path: seq<Seg>, seg: Seg, v: Toml, rest: seq<Seg>, key: string)
    ensures Finding(path + rest, key) in Scan(path + [seg], v)
            <==> rest != [] && rest[0] == seg && MisplacedUnder(v, rest[1..], key)
    decreases v, 1
  {
    if Finding(path + rest, key) in Scan(path + [seg], v) {
      ScanPaths(path + [seg], v, Finding(path + rest, key));
      assert (path + rest)[|path|] == seg;
    }
    if rest != [] && rest[0] == seg {
      assert path + rest == path + [seg] + rest[1..];
      ScanExact(path + [seg], v, rest[1..], key);
    }
  }

  lemma {:induction false} MisplacedSnoc(front: seq<Entry>, last: Entry, rest: seq<Seg>, key: string)
    ensures Misplaced(front + [last], rest, key)
            <==> (Misplaced(front, rest, key)
                  || (if rest == [] then RootOnly(key) && last.key == key && last.value.Scalar?
                      else rest[0] == Key(last.key) && MisplacedUnder(last.value, rest[1..], key)))
  {
    hide RootOnly, MisplacedUnder;
    var es := front + [last];
    assert es[|front|] == last;
    assert forall i :: 0 <= i < |front| ==> es[i] == front[i];
  }

  lemma {:induction false} EntriesExact(path: seq<Seg>, es: seq<Entry>, rest: seq<Seg>, key: string)
    ensures Finding(path + rest, key) in ScanEntries(path, es) <==> Misplaced(es, rest, key)
    decreases es
  {
    hide Scan, MisplacedUnder, RootOnly;
    if es != [] {
      var n := |es| - 1;
      var last := es[n];
      EntriesExact(path, es[..n], rest, key);
      MisplacedSnoc(es[..n], last, rest, key);
      assert es == es[..n] + [last];
      if last.value.Scalar? {
        assert path + rest == path <==> rest == [];
        ScalarUnder(last.value, rest, key);
      } else {
        StepExact(path, Key(last.key), last.value, rest, key);
      }
    }
  }

  lemma {:induction false} ScalarUnder(v: Toml, rest: seq<Seg>, key: string)
    requires v.Scalar?
    ensures rest != [] ==> !MisplacedUnder(v, rest[1..], key)
  {
  }

  lemma {:induction false} ItemsExact(path: seq<Seg>, items: seq<Toml>, rest: seq<Seg>, key: string)
    ensures Finding(path + rest, key) in ScanItems(path, items)
            <==> (rest != [] && rest[0].Index? && rest[0].i < |items| && items[rest[0].i].Table?
                  && Misplaced(items[rest[0].i].entries, rest[1..], key))
    decreases items
  {
    hide Scan, Misplaced;
    if items != [] {
      var n := |items| - 1;
      ItemsExact(path, items[..n], rest, key);
      if items[n].Table? {
        StepExact(path, Index(n), items[n], rest, key);
      }
    }
  }

  /** The error list holds exactly the root-only keys bound to a scalar in some table below the root. */
  lemma {:induction false} RootExact(es: seq<Entry>, path: seq<Seg>, key: string)
    ensures Finding(path, key) in ScanRoot(es) <==> path != [] && Misplaced(es, path, key)
  {
    hide Scan, MisplacedUnder, RootOnly;
    if es != [] {
      var n := |es| - 1;
      RootExact(es[..n], path, key);
      MisplacedSnoc(es[..n], es[n], path, key);
      assert es == es[..n] + [es[n]];
      StepExact([], Key(es[n].key), es[n].value, path, key);
      assert [] + [Key(es[n].key)] == [Key(es[n].key)] && [] + path == path;
    }
  }

  // ----- No key is reported twice -----

  ghost predicate UniqueKeys(v: Toml)
    decreases v
  {
    match v
    case Scalar(_) => true
    case Array(items) => forall i :: 0 <= i < |items| ==> UniqueKeys(items[i])
    case Table(es) => DistinctKeys(es) && forall i :: 0 <= i < |es| ==> UniqueKeys(es[i].value)
  }

  predicate DistinctKeys(es: seq<Entry>) {
    forall i, j :: 0 <= i < j < |es| ==> es[i].key != es[j].key
  }

  predicate NoRepeats(fs: seq<Finding>) {
    forall i, j :: 0 <= i < j < |fs| ==> fs[i] != fs[j]
  }

  lemma {:induction false} NoRepeatsConcat(fs: seq<Finding>, gs: seq<Finding>)
    requires NoRepeats(fs) && NoRepeats(gs) && forall f :: f in fs ==> f !in gs
    ensures NoRepeats(fs + gs)
  {
    var hs := fs + gs;
    forall i, j | 0 <= i < j < |hs| ensures hs[i] != hs[j] {
      if i < |fs| <= j { assert hs[i] in fs && hs[j] in gs; }
    }
  }

  lemma {:induction false} ScanNoRepeats(path: seq<Seg>, v: Toml)
    requires UniqueKeys(v)
    ensures NoRepeats(Scan(path, v))
    decreases v
  {
    match v
    case Scalar(_) =>
    case Array(items) => ItemsNoRepeats(path, items);
    case Table(es) => EntriesNoRepeats(path, es);
  }

  lemma {:induction false} EntriesNoRepeats(path: seq<Seg>, es: seq<Entry>)
    requires DistinctKeys(es) && forall i :: 0 <= i < |es| ==> UniqueKeys(es[i].value)
    ensures NoRepeats(ScanEntries(path, es))
    decreases es
  {
    hide Scan, UniqueKeys, RootOnly;
    if es != [] {
      var n := |es| - 1;
      var front := ScanEntries(path, es[..n]);
      var key := es[n].key;
      EntriesNoRepeats(path, es[..n]);
      var added := if es[n].value.Scalar? then (if RootOnly(key) then [Finding(path, key)] else [])
                   else Scan(path + [Key(key)], es[n].value);
      if !es[n].value.Scalar? { ScanNoRepeats(path + [Key(key)], es[n].value); }
      forall f | f in added ensures TaggedBy(path, key, f) {
        if !es[n].value.Scalar? { ScanPaths(path + [Key(key)], es[n].value, f); }
      }
      forall f | f in front ensures !TaggedBy(path, key, f) {
        var j := EntriesOrigin(path, es[..n], f);
        assert es[..n][j].key != key;
      }
      NoRepeatsConcat(front, added);
      assert ScanEntries(path, es) == front + added;
    }
  }

  lemma {:induction false} ItemsNoRepeats(path: seq<Seg>, items: seq<Toml>)
    requires forall i :: 0 <= i < |items| ==> UniqueKeys(items[i])
    ensures NoRepeats(ScanItems(path, items))
    decreases items
  {
    hide Scan, UniqueKeys;
    if items != [] {
      var n := |items| - 1;
      var front := ScanItems(path, items[..n]);
      ItemsNoRepeats(path, items[..n]);
      if items[n].Table? {
        var added := Scan(path + [Index(n)], items[n]);
        ScanNoRepeats(path + [Index(n)], items[n]);
        forall f | f in front ensures f !in added {
          var j := ItemsOrigin(path, items[..n], f);
          assert f.path[|path|] == Index(j);
          if f in added {
            ScanPaths(path + [Index(n)], items[n], f);
          }
        }
        NoRepeatsConcat(front, added);
      }
    }
  }

  /** One entry per misplaced key: nothing is listed twice. */
  lemma {:induction false} RootNoRepeats(es: seq<Entry>)
    requires UniqueKeys(Table(es))
    ensures NoRepeats(ScanRoot(es))
  {
    hide Scan;
    if es != [] {
      var n := |es| - 1;
      assert forall i :: 0 <= i < n ==> es[..n][i] == es[i];
      assert UniqueKeys(Table(es[..n]));
      RootNoRepeats(es[..n]);
      var added := Scan([Key(es[n].key)], es[n].value);
      ScanNoRepeats([Key(es[n].key)], es[n].value);
      forall f | f in ScanRoot(es[..n]) ensures f !in added {
        var j := RootOrigin(es[..n], f);
        if f in added { ScanPaths([Key(es[n].key)], es[n].value, f); }
      }
      NoRepeatsConcat(ScanRoot(es[..n]), added);
    }
  }

  lemma {:induction false} RootOrigin(es: seq<Entry>, f: Finding) returns (j: nat)
    requires f in ScanRoot(es)
    ensures j < |es| && f.path != [] && f.path[0] == Key(es[j].key)
  {
    hide Scan;
    var n := |es| - 1;
    if f in ScanRoot(es[..n]) {
      j := RootOrigin(es[..n], f);
    } else {
      j := n;
      ScanPaths([Key(es[n].key)], es[n].value, f);
    }
  }

  // ----- The imperative walk -----

  /** How a path is spelled in the message. */
  function Render(path: seq<Seg>): string {
    if path == [] then ""
    else
      var front := Render(path[..|path| - 1]);
      match path[|path| - 1]
      case Key(k) => if |path| == 1 then k else front + "." + k
      case Index(i) => front + "[" + Digits(i) + "]"
  }

  function Lines(fs: seq<Finding>): (ls: seq<(string, string)>)
    ensures |ls| == |fs|
  {
    seq(|fs|, i requires 0 <= i < |fs| => (Render(fs[i].path), fs[i].key))
  }

  lemma {:induction false} LinesConcat(fs: seq<Finding>, gs: seq<Finding>)
    ensures Lines(fs + gs) == Lines(fs) + Lines(gs)
  {
  }

  lemma {:induction false} RenderKey(path: seq<Seg>, k: string)
    requires path != []
    ensures Render(path + [Key(k)]) == Render(path) + "." + k
  {
    assert (path + [Key(k)])[..|path|] == path;
  }

  lemma {:induction false} RenderIndex(path: seq<Seg>, i: nat)
    requires path != []
    ensures Render(path + [Index(i)]) == Render(path) + "[" + Digits(i) + "]"
  {
    assert (path + [Index(i)])[..|path|] == path;
  }

  // ----- No line is printed twice -----

  /** A key that prints like something else: like a longer path, or like an array element. */
  ghost predicate Ambiguous(key: string) {
    '.' in key || exists a: string, i: nat :: key == a + Bracketed(i)
  }

  function Bracketed(i: nat): string { "[" + Digits(i) + "]" }

  /** No key of the document is ambiguous. */
  ghost predicate PlainKeys(v: Toml)
    decreases v
  {
    match v
    case Scalar(_) => true
    case Array(items) => forall i :: 0 <= i < |items| ==> PlainKeys(items[i])
    case Table(es) => forall i :: 0 <= i < |es| ==> !Ambiguous(es[i].key) && PlainKeys(es[i].value)
  }

  /** A path as the scan builds it, through unambiguous keys. */
  ghost predicate PlainPath(path: seq<Seg>) {
    && path != [] && path[0].Key?
    && forall i :: 0 <= i < |path| && path[i].Key? ==> !Ambiguous(path[i].key)
  }

  lemma {:induction false} SeparatorsClash(f: string, k: string, g: string, l: string, c: char)
    requires f + [c] + k == g + [c] + l
    ensures |f| < |g| ==> c in k
    ensures |g| < |f| ==> c in l
  {
    var s, t := f + [c] + k, g + [c] + l;
    if |f| < |g| {
      assert k[|g| - |f| - 1] == s[|g|] == t[|g|];
    } else if |g| < |f| {
      assert l[|f| - |g| - 1] == t[|f|] == s[|f|];
    }
  }

  /** What follows the last occurrence of a character is determined by the whole. */
  lemma {:induction false} SplitAtLast(f: string, k: string, g: string, l: string, c: char)
    requires c !in k && c !in l && f + [c] + k == g + [c] + l
    ensures f == g && k == l
  {
    SeparatorsClash(f, k, g, l, c);
    var s, t := f + [c] + k, g + [c] + l;
    assert s[|f| + 1..] == k && t[|g| + 1..] == l;
    assert s[..|f|] == f && t[..|g|] == g;
  }

  lemma {:induction false} DigitsHoldNo(n: nat, c: char)
    requires !IsDigit(c)
    ensures c !in Digits(n)
  {
    DigitsReadBack(n);
  }

  lemma {:induction false} RenderIndexInjective(f: string, i: nat, g: string, j: nat)
    requires f + Bracketed(i) == g + Bracketed(j)
    ensures f == g && i == j
  {
    DigitsHoldNo(i, '[');
    DigitsHoldNo(j, '[');
    assert f + Bracketed(i) == f + ['['] + (Digits(i) + "]");
    assert g + Bracketed(j) == g + ['['] + (Digits(j) + "]");
    SplitAtLast(f, Digits(i) + "]", g, Digits(j) + "]", '[');
    assert (Digits(i) + "]")[..|Digits(i)|] == Digits(i) && (Digits(j) + "]")[..|Digits(j)|] == Digits(j);
    DigitsReadBack(i);
    DigitsReadBack(j);
  }

  lemma {:induction false} DotInSuffix(f: string, b: string, g: string, key: string)
    requires f + b == g + "." + key
    ensures |f| <= |g| ==> '.' in b
    ensures |g| < |f| ==> key == f[|g| + 1..] + b
  {
    var s := f + b;
    assert s[|g|] == '.' && s[|g| + 1..] == key;
    if |f| <= |g| {
      assert b[|g| - |f|] == s[|g|];
    } else {
      assert s[|g| + 1..] == f[|g| + 1..] + b;
    }
  }

  /** A string that ends like an array element does not end in an unambiguous key after a dot. */
  lemma {:induction false} KeyIsNoIndex(f: string, i: nat, g: string, key: string)
    requires f + Bracketed(i) == g + "." + key
    ensures Ambiguous(key)
  {
    hide Ambiguous;
    DigitsHoldNo(i, '.');
    assert '.' !in Bracketed(i);
    DotInSuffix(f, Bracketed(i), g, key);
    EndsLikeIndex(f[|g| + 1..], i);
  }

  lemma {:induction false} EndsLikeIndex(a: string, i: nat)
    ensures Ambiguous(a + Bracketed(i))
  {
  }

  lemma {:induction false} DotIsAmbiguous(a: string, b: string)
    ensures Ambiguous(a + "." + b)
  {
    assert (a + "." + b)[|a|] == '.';
  }

  lemma {:induction false} PlainPathFront(path: seq<Seg>)
    requires PlainPath(path) && |path| > 1
    ensures PlainPath(path[..|path| - 1])
  {
  }

  /** Distinct paths through unambiguous keys print differently. */
  lemma {:induction false} RenderInjective(p: seq<Seg>, q: seq<Seg>)
    requires PlainPath(p) && PlainPath(q) && Render(p) == Render(q)
    ensures p == q
    decreases |p|
  {
    hide Ambiguous, PlainPath;
    PlainEnds(p);
    PlainEnds(q);
    var m, n := |p| - 1, |q| - 1;
    var f, g := Render(p[..m]), Render(q[..n]);
    if p[m].Index? && q[n].Index? {
      assert Render(p) == f + Bracketed(p[m].i) && Render(q) == g + Bracketed(q[n].i);
      RenderIndexInjective(f, p[m].i, g, q[n].i);
      PlainPathFront(p);
      PlainPathFront(q);
      RenderInjective(p[..m], q[..n]);
    } else if p[m].Index? {
      MixedEnds(p, q);
    } else if q[n].Index? {
      MixedEnds(q, p);
    } else if m > 0 && n > 0 {
      NoDot(p[m].key);
      NoDot(q[n].key);
      SplitAtLast(f, p[m].key, g, q[n].key, '.');
      PlainPathFront(p);
      PlainPathFront(q);
      RenderInjective(p[..m], q[..n]);
    } else if m > 0 {
      DotIsAmbiguous(f, p[m].key);
    } else if n > 0 {
      DotIsAmbiguous(g, q[n].key);
    }
    assert p == p[..m] + [p[m]] && q == q[..n] + [q[n]];
  }

  lemma {:induction false} NoDot(key: string)
    requires !Ambiguous(key)
    ensures '.' !in key
  {
  }

  lemma {:induction false} PlainEnds(path: seq<Seg>)
    requires PlainPath(path)
    ensures path != [] && (path[|path| - 1].Index? ==> |path| > 1)
    ensures path[|path| - 1].Key? ==> !Ambiguous(path[|path| - 1].key)
  {
  }

  lemma {:induction false} MixedEnds(p: seq<Seg>, q: seq<Seg>)
    requires PlainPath(p) && PlainPath(q) && p[|p| - 1].Index? && q[|q| - 1].Key?
    ensures Render(p) != Render(q)
  {
    hide Ambiguous;
    var f, i, key := Render(p[..|p| - 1]), p[|p| - 1].i, q[|q| - 1].key;
    assert Render(p) == f + Bracketed(i);
    if Render(p) == Render(q) {
      if |q| == 1 {
        EndsLikeIndex(f, i);
      } else {
        KeyIsNoIndex(f, i, Render(q[..|q| - 1]), key);
      }
      assert false;
    }
  }

  /** Findings of a document without ambiguous keys have plain paths. */
  lemma {:induction false} MisplacedIsPlain(es: seq<Entry>, path: seq<Seg>, key: string)
    requires PlainKeys(Table(es)) && Misplaced(es, path, key)
    ensures path != [] ==> PlainPath(path)
    ensures forall i :: 0 <= i < |path| && path[i].Key? ==> !Ambiguous(path[i].key)
    decreases |path|
  {
    hide Ambiguous;
    if path != [] {
      var i :| 0 <= i < |es| && path[0] == Key(es[i].key) && MisplacedUnder(es[i].value, path[1..], key);
      var v, rest := es[i].value, path[1..];
      if v.Table? && Misplaced(v.entries, rest, key) {
        assert v == Table(v.entries);
        MisplacedIsPlain(v.entries, rest, key);
        assert forall j :: 1 <= j < |path| ==> path[j] == rest[j - 1];
      } else {
        var item := v.items[rest[0].i];
        assert item == Table(item.entries);
        MisplacedIsPlain(item.entries, rest[1..], key);
        assert forall j :: 2 <= j < |path| ==> path[j] == rest[1..][j - 2];
      }
    }
  }

  predicate NoLineTwice(lines: seq<(string, string)>) {
    forall i, j :: 0 <= i < j < |lines| ==> lines[i] != lines[j]
  }

  /** With unambiguous keys, unique in each table, no line of the message is printed twice. */
  lemma {:induction false} LinesNoRepeats(es: seq<Entry>)
    requires UniqueKeys(Table(es)) && PlainKeys(Table(es))
    ensures NoLineTwice(Lines(ScanRoot(es)))
  {
    hide UniqueKeys, PlainKeys, ScanRoot, Render, Misplaced, PlainPath;
    var fs := ScanRoot(es);
    RootNoRepeats(es);
    forall i | 0 <= i < |fs| ensures PlainPath(fs[i].path) {
      assert Finding(fs[i].path, fs[i].key) in fs;
      RootExact(es, fs[i].path, fs[i].key);
      MisplacedIsPlain(es, fs[i].path, fs[i].key);
    }
    forall i, j | 0 <= i < j < |fs| && Lines(fs)[i] == Lines(fs)[j] ensures false {
      RenderInjective(fs[i].path, fs[j].path);
    }
  }

  const MISPLACED_BIND := Table([Entry("bind", Scalar("0.0.0.0"))])

  lemma {:induction false} BindMisplaced(path: seq<Seg>)
    ensures Scan(path, MISPLACED_BIND) == [Finding(path, "bind")]
  {
    var es := MISPLACED_BIND.entries;
    assert es[..0] == [];
    assert ScanEntries(path, es[..0]) == [];
    assert TOP_LEVEL_SCALAR_KEYS[0] == "bind";
  }

  /** Two bindings of the root whose scans each find one misplaced key that prints the same. */
  lemma {:induction false} TwoLinesAlike(x: Entry, y: Entry, p: seq<Seg>, q: seq<Seg>)
    requires Scan([Key(x.key)], x.value) == [Finding(p, "bind")] && Scan([Key(y.key)], y.value) == [Finding(q, "bind")]
    requires Render(p) == Render(q)
    ensures !NoLineTwice(Lines(ScanRoot([x, y])))
  {
    hide Scan, Render;
    var es := [x, y];
    assert es[..1] == [x] && es[..1][..0] == [];
    assert ScanRoot([x]) == [] + [Finding(p, "bind")];
    assert ScanRoot(es) == [Finding(p, "bind")] + [Finding(q, "bind")];
    var lines := Lines(ScanRoot(es));
    assert lines[0] == lines[1];
  }

  lemma {:induction false} DottedRepeats(key: string, a: string, b: string) returns (es: seq<Entry>)
    requires key == a + "." + b
    ensures UniqueKeys(Table(es)) && (exists i :: 0 <= i < |es| && es[i].key == key)
    ensures !NoLineTwice(Lines(ScanRoot(es)))
  {
    var inner := [Entry(b, MISPLACED_BIND)];
    es := [Entry(key, MISPLACED_BIND), Entry(a, Table(inner))];
    assert es[0].key == key && |key| > |a|;
    assert UniqueKeys(MISPLACED_BIND) && UniqueKeys(Table(inner));
    BindMisplaced([Key(key)]);
    BindMisplaced([Key(a)] + [Key(b)]);
    assert inner[..0] == [] && ScanEntries([Key(a)], []) == [];
    RenderKey([Key(a)], b);
    assert [Key(a)][..0] == [] && [Key(key)][..0] == [];
    TwoLinesAlike(es[0], es[1], [Key(key)], [Key(a)] + [Key(b)]);
  }

  lemma {:induction false} NoTablesNoFindings(path: seq<Seg>, items: seq<Toml>)
    requires forall i :: 0 <= i < |items| ==> items[i].Scalar?
    ensures ScanItems(path, items) == []
  {
    if items != [] { NoTablesNoFindings(path, items[..|items| - 1]); }
  }

  lemma {:induction false} BracketRepeats(key: string, a: string, n: nat) returns (es: seq<Entry>)
    requires key == a + Bracketed(n)
    ensures UniqueKeys(Table(es)) && (exists i :: 0 <= i < |es| && es[i].key == key)
    ensures !NoLineTwice(Lines(ScanRoot(es)))
  {
    hide Scan, Render, UniqueKeys;
    var items := seq(n, i => Scalar("")) + [MISPLACED_BIND];
    es := [Entry(key, MISPLACED_BIND), Entry(a, Array(items))];
    assert es[0].key == key && |key| > |a|;
    PaddedScan([Key(a)], n, items);
    TwoUnique(es[0], es[1]);
    BindMisplaced([Key(key)]);
    RenderIndex([Key(a)], n);
    RenderSingle(a);
    RenderSingle(key);
    assert Render([Key(a)] + [Index(n)]) == a + Bracketed(n);
    TwoLinesAlike(es[0], es[1], [Key(key)], [Key(a)] + [Index(n)]);
  }

  /** An array of scalars with a table at its end. */
  lemma {:induction false} PaddedScan(path: seq<Seg>, n: nat, items: seq<Toml>)
    requires items == seq(n, i => Scalar("")) + [MISPLACED_BIND]
    ensures Scan(path, Array(items)) == [Finding(path + [Index(n)], "bind")]
    ensures UniqueKeys(Array(items)) && UniqueKeys(MISPLACED_BIND)
  {
    BindMisplaced(path + [Index(n)]);
    NoTablesNoFindings(path, items[..n]);
    assert |items| == n + 1 && items[n] == MISPLACED_BIND;
    assert ScanItems(path, items) == ScanItems(path, items[..n]) + Scan(path + [Index(n)], items[n]);
    assert UniqueKeys(MISPLACED_BIND);
    assert forall i :: 0 <= i < n ==> items[i] == Scalar("");
  }

  lemma {:induction false} TwoUnique(x: Entry, y: Entry)
    requires x.key != y.key && UniqueKeys(x.value) && UniqueKeys(y.value)
    ensures UniqueKeys(Table([x, y]))
  {
  }

  lemma {:induction false} RenderSingle(k: string)
    ensures Render([Key(k)]) == k
  {
  }

  /** The condition cannot be dropped: every ambiguous key occurs in a document that prints a line twice. */
  lemma {:induction false} AmbiguousKeyRepeats(key: string) returns (es: seq<Entry>)
    requires Ambiguous(key)
    ensures UniqueKeys(Table(es)) && (exists i :: 0 <= i < |es| && es[i].key == key)
    ensures !NoLineTwice(Lines(ScanRoot(es)))
  {
    if '.' in key {
      var d :| 0 <= d < |key| && key[d] == '.';
      es := DottedRepeats(key, key[..d], key[d + 1..]);
    } else {
      var a: string, i: nat :| key == a + Bracketed(i);
      es := BracketRepeats(key, a, i);
    }
  }

  /** The walk pushes onto `out` the findings of the scan, in order, spelled as strings. */
  method WalkForMisplaced(path: string, value: Toml, out: seq<(string, string)>, ghost segs: seq<Seg>)
    returns (pushed: seq<(string, string)>)
    requires segs != [] && path == Render(segs)
    ensures pushed == out + Lines(Scan(segs, value))
    decreases value
  {
    hide Render, Lines, RootOnly;
    pushed := out;
    match value
    case Scalar(_) =>
      NoLines();
    case Array(items) =>
      pushed := WalkItems(path, items, out, segs);
    case Table(es) =>
      NoLines();
      for i := 0 to |es|
        invariant pushed == out + Lines(ScanEntries(segs, es[..i]))
      {
        assert es[..i + 1][..i] == es[..i];
        ghost var before := ScanEntries(segs, es[..i]);
        var Entry(k, v) := es[i];
        match v
        case Table(_) =>
          RenderKey(segs, k);
          LinesConcat(before, Scan(segs + [Key(k)], v));
          pushed := WalkForMisplaced(path + "." + k, v, pushed, segs + [Key(k)]);
        case Array(items) =>
          RenderKey(segs, k);
          LinesConcat(before, Scan(segs + [Key(k)], v));
          pushed := WalkItems(path + "." + k, items, pushed, segs + [Key(k)]);
        case Scalar(_) =>
          if RootOnly(k) {
            LinesConcat(before, [Finding(segs, k)]);
            OneLine(segs, k);
            pushed := pushed + [(path, k)];
          } else {
            assert before + [] == before;
          }
      }
      assert es[..|es|] == es;
  }

  /** The loop over an array: only elements that are tables are walked. */
  method WalkItems(path: string, items: seq<Toml>, out: seq<(string, string)>, ghost segs: seq<Seg>)
    returns (pushed: seq<(string, string)>)
    requires segs != [] && path == Render(segs)
    ensures pushed == out + Lines(ScanItems(segs, items))
    decreases items
  {
    hide Render, Lines;
    pushed := out;
    NoLines();
    for i := 0 to |items|
      invariant pushed == out + Lines(ScanItems(segs, items[..i]))
    {
      assert items[..i + 1][..i] == items[..i];
      if items[i].Table? {
        RenderIndex(segs, i);
        LinesConcat(ScanItems(segs, items[..i]), Scan(segs + [Index(i)], items[i]));
        pushed := WalkForMisplaced(path + "[" + Digits(i) + "]", items[i], pushed, segs + [Index(i)]);
      } else {
        assert ScanItems(segs, items[..i]) + [] == ScanItems(segs, items[..i]);
      }
    }
    assert items[..|items|] == items;
  }

  lemma {:induction false} NoLines()
    ensures Lines([]) == []
  {
  }

  lemma {:induction false} OneLine(path: seq<Seg>, key: string)
    ensures Lines([Finding(path, key)]) == [(Render(path), key)]
  {
    hide Render;
  }

  datatype Outcome = Accepted | Rejected(lines: seq<(string, string)>)

  /** A document whose root is no table is left to the deserialiser; any other is accepted iff nothing is misplaced. */
  method ValidateTopLevelKeyPlacement(value: Toml) returns (r: Outcome)
    ensures r.Accepted? <==> value.Table? ==> forall path, key :: path != [] ==> !Misplaced(value.entries, path, key)
    ensures r.Rejected? ==> value.Table? && r.lines == Lines(ScanRoot(value.entries)) && r.lines != []
  {
    if !value.Table? { return Accepted; }
    var es := value.entries;
    var lines: seq<(string, string)> := [];
    for i := 0 to |es|
      invariant lines == Lines(ScanRoot(es[..i]))
    {
      hide Scan, Lines, Misplaced;
      assert es[..i + 1][..i] == es[..i];
      ghost var segs := [Key(es[i].key)];
      assert segs[..0] == [];
      LinesConcat(ScanRoot(es[..i]), Scan(segs, es[i].value));
      lines := WalkForMisplaced(es[i].key, es[i].value, lines, segs);
    }
    assert es[..|es|] == es;
    AcceptedExactly(es);
    hide Misplaced, ScanRoot;
    r := if lines == [] then Accepted else Rejected(lines);
  }

  lemma {:induction false} AcceptedExactly(es: seq<Entry>)
    ensures ScanRoot(es) == [] <==> forall path, key :: path != [] ==> !Misplaced(es, path, key)
  {
    hide ScanRoot, Misplaced;
    forall path, key ensures Finding(path, key) in ScanRoot(es) <==> path != [] && Misplaced(es, path, key) {
      RootExact(es, path, key);
    }
    if ScanRoot(es) != [] {
      var f := ScanRoot(es)[0];
      assert Finding(f.path, f.key) in ScanRoot(es);
      assert Misplaced(es, f.path, f.key);
    }
  }
}
