/** The fingerprint of the agent-state entries: their sorted directory names under each root, joined into one key. */
module EntryFingerprint {
  import opened Wrappers
  import opened Ordering

  const ABSENT := "<absent>"

  datatype Listing = Absent | Unreadable | Entries(names: seq<string>)

  datatype Root = Root(path: string, listing: Listing)

  function Join(parts: seq<string>, separator: string): string {
    if parts == [] then ""
    else if |parts| == 1 then parts[0]
    else parts[0] + separator + Join(parts[1..], separator)
  }

  function NamesPart(l: Listing): string {
    match l
    case Absent => ABSENT
    case Unreadable => ""
    case Entries(names) => Join(SortBy(names, LexLess), "\0")
  }

  function Part(r: Root): string {
    r.path + "\0" + NamesPart(r.listing)
  }

  function Parts(roots: seq<Root>): (parts: seq<string>)
    ensures |parts| == |roots|
  {
    seq(|roots|, i requires 0 <= i < |roots| => Part(roots[i]))
  }

  function Fingerprint(roots: seq<Root>): string {
    Join(Parts(roots), "|")
  }

  predicate AreReadable(roots: seq<Root>) {
    forall i :: 0 <= i < |roots| ==> roots[i].listing != Unreadable
  }

  /** None when the context has ended or a root cannot be read. */
  method AgentStateEntryFingerprint(roots: seq<Root>, ended: bool) returns (r: Option<string>)
    ensures r == if ended || !AreReadable(roots) then None else Some(Fingerprint(roots))
  {
    if ended {
      return None;
    }
    var parts: seq<string> := [];
    for i := 0 to |roots|
      invariant |parts| == i && AreReadable(roots[..i]) && forall j :: 0 <= j < i ==> parts[j] == Part(roots[j])
    {
      match roots[i].listing {
        case Absent => parts := parts + [roots[i].path + "\0" + ABSENT];
        case Unreadable => return None;
        case Entries(names) => parts := parts + [roots[i].path + "\0" + Join(SortBy(names, LexLess), "\0")];
      }
    }
    assert roots[..|roots|] == roots;
    assert parts == Parts(roots);
    return Some(Join(parts, "|"));
  }

  // ----- what file names and roots look like

  /** A name is not empty and has no slash and no zero byte. */
  predicate IsName(s: string) {
    s != "" && '/' !in s && '\0' !in s
  }

  predicate IsListing(l: Listing) {
    l.Entries? ==> forall i :: 0 <= i < |l.names| ==> IsName(l.names[i])
  }

  predicate AreRoots(roots: seq<Root>) {
    forall i :: 0 <= i < |roots| ==> |roots[i].path| > 0 && roots[i].path[0] == '/' && IsListing(roots[i].listing)
  }

  /** The entries as a set of names; an absent root looks like one with a single entry of that name. */
  function EntrySet(l: Listing): multiset<string> {
    match l
    case Absent => multiset{ABSENT}
    case Unreadable => multiset{}
    case Entries(names) => multiset(names)
  }

  ghost predicate SameEntries(a: seq<Root>, b: seq<Root>) {
    |a| == |b|
    && forall i :: 0 <= i < |a| ==> a[i].path == b[i].path && EntrySet(a[i].listing) == EntrySet(b[i].listing)
  }

  // ----- joining names

  lemma LongerHolds(x: string, r: string, y: string, s: string, c: char)
    requires x + [c] + r == y + [c] + s && |x| < |y|
    ensures c in y
  {
    assert (x + [c] + r)[|x|] == c && (y + [c] + s)[|x|] == y[|x|];
  }

  lemma Split(x: string, r: string, y: string, s: string, c: char)
    requires x + [c] + r == y + [c] + s && c !in x && c !in y
    ensures x == y && r == s
  {
    var a := x + [c] + r;
    if |x| < |y| {
      LongerHolds(x, r, y, s, c);
    } else if |y| < |x| {
      LongerHolds(y, s, x, r, c);
    }
    assert x == a[..|x|] && y == a[..|y|];
    assert r == a[|x| + 1..] && s == a[|y| + 1..];
  }

  lemma {:induction false} JoinIsInjective(a: seq<string>, b: seq<string>)
    requires (forall i :: 0 <= i < |a| ==> IsName(a[i])) && (forall i :: 0 <= i < |b| ==> IsName(b[i]))
    requires Join(a, "\0") == Join(b, "\0")
    ensures a == b
    decreases |a|
  {
    hide IsName;
    JoinHasZero(a);
    JoinHasZero(b);
    if |a| > 1 && |b| > 1 {
      NamesHaveNoZero(a[0]);
      NamesHaveNoZero(b[0]);
      assert Join(a, "\0") == a[0] + ['\0'] + Join(a[1..], "\0");
      assert Join(b, "\0") == b[0] + ['\0'] + Join(b[1..], "\0");
      Split(a[0], Join(a[1..], "\0"), b[0], Join(b[1..], "\0"), '\0');
      JoinIsInjective(a[1..], b[1..]);
      assert a == [a[0]] + a[1..] && b == [b[0]] + b[1..];
    }
  }

  lemma NamesHaveNoZero(s: string)
    requires IsName(s)
    ensures '\0' !in s && '/' !in s && s != ""
  {
  }

  /** Joined names are empty only for no names, and contain a zero byte only for more than one. */
  lemma JoinHasZero(a: seq<string>)
    requires forall i :: 0 <= i < |a| ==> IsName(a[i])
    ensures Join(a, "\0") == "" <==> |a| == 0
    ensures '\0' in Join(a, "\0") <==> |a| > 1
  {
    if |a| > 1 {
      var j := a[0] + "\0" + Join(a[1..], "\0");
      assert j[|a[0]|] == '\0';
    }
  }

  lemma {:induction false} JoinHasNoSlash(a: seq<string>)
    requires forall i :: 0 <= i < |a| ==> IsName(a[i])
    ensures '/' !in Join(a, "\0")
  {
    if |a| > 1 {
      JoinHasNoSlash(a[1..]);
    }
  }

  // ----- sorting names

  lemma {:induction false} LexTotal(a: string, b: string)
    requires !LexLess(a, b) && !LexLess(b, a)
    ensures a == b
    decreases |a|
  {
    if a != "" && b != "" {
      LexTotal(a[1..], b[1..]);
      assert a == [a[0]] + a[1..] && b == [b[0]] + b[1..];
    }
  }

  lemma LexIsWeakOrder()
    ensures WeakOrder(LexLess)
  {
    forall x, y | LexLess(x, y) ensures !LexLess(y, x) {
      LexAsymmetric(x, y);
    }
    forall x, y, z | !LexLess(y, x) && !LexLess(z, y) ensures !LexLess(z, x) {
      LexNotLessTransitive(x, y, z);
    }
  }

  lemma SameFirst(a: seq<string>, b: seq<string>)
    requires a != [] && b != [] && Ordered(a, LexLess) && Ordered(b, LexLess) && a[0] in b && b[0] in a
    ensures a[0] == b[0]
  {
    hide LexLess;
    var i :| 0 <= i < |b| && b[i] == a[0];
    var j :| 0 <= j < |a| && a[j] == b[0];
    LexIrreflexive(a[0]);
    LexIrreflexive(b[0]);
    assert !LexLess(a[0], b[0]) && !LexLess(b[0], a[0]);
    LexTotal(a[0], b[0]);
  }

  lemma TailCounts(a: seq<string>)
    requires a != []
    ensures multiset(a) == multiset{a[0]} + multiset(a[1..]) && a[0] in multiset(a)
  {
    assert a == [a[0]] + a[1..];
  }

  lemma {:induction false} SortedNamesAreUnique(a: seq<string>, b: seq<string>)
    requires Ordered(a, LexLess) && Ordered(b, LexLess) && multiset(a) == multiset(b)
    ensures a == b
    decreases |a|
  {
    hide LexLess;
    assert |multiset(a)| == |a| && |multiset(b)| == |b|;
    if a != [] {
      TailCounts(a);
      TailCounts(b);
      SameFirst(a, b);
      assert multiset(a[1..]) == multiset(a) - multiset{a[0]} == multiset(b[1..]);
      SortedNamesAreUnique(a[1..], b[1..]);
      assert a == [a[0]] + a[1..] && b == [b[0]] + b[1..];
    }
  }

  lemma {:induction false} LexIrreflexive(a: string)
    ensures !LexLess(a, a)
    decreases |a|
  {
    if a != "" {
      LexIrreflexive(a[1..]);
    }
  }

  /** Equal parts mean equal entries, and the other way round. */
  lemma PartIsExact(a: Listing, b: Listing)
    requires a != Unreadable && b != Unreadable && IsListing(a) && IsListing(b)
    ensures NamesPart(a) == NamesPart(b) <==> EntrySet(a) == EntrySet(b)
  {
    hide SortBy, LexLess, IsName, Join;
    var x, y := AsNames(a), AsNames(b);
    NamesOf(a);
    NamesOf(b);
    if NamesPart(a) == NamesPart(b) {
      JoinIsInjective(x, y);
    }
    if EntrySet(a) == EntrySet(b) {
      SortedNamesAreUnique(x, y);
    }
  }

  function AsNames(l: Listing): seq<string> {
    match l
    case Absent => [ABSENT]
    case Unreadable => []
    case Entries(names) => SortBy(names, LexLess)
  }

  lemma NamesOf(l: Listing)
    requires l != Unreadable && IsListing(l)
    ensures var x := AsNames(l);
            && NamesPart(l) == Join(x, "\0") && multiset(x) == EntrySet(l) && Ordered(x, LexLess)
            && forall i :: 0 <= i < |x| ==> IsName(x[i])
  {
    match l {
      case Absent =>
        assert Join([ABSENT], "\0") == ABSENT;
      case Entries(names) =>
        LexIsWeakOrder();
        SortSorts(names, LexLess);
        SortKeeps(names, LexLess);
        SortKeepsMembers(names, LexLess);
        hide SortBy, LexLess;
        var x := AsNames(l);
        forall i | 0 <= i < |x| ensures IsName(x[i]) {
          assert x[i] in names;
        }
    }
  }

  lemma NamesPartHasNoSlash(l: Listing)
    requires l != Unreadable && IsListing(l)
    ensures '/' !in NamesPart(l)
  {
    NamesOf(l);
    JoinHasNoSlash(AsNames(l));
  }

  // ----- the whole key

  /** Between a part without a slash and one that begins with one there is exactly one bar. */
  lemma SplitAtSlash(x: string, r: string, y: string, s: string)
    requires x + "|" + r == y + "|" + s && '/' !in x && '/' !in y
    requires |r| > 0 && r[0] == '/' && |s| > 0 && s[0] == '/'
    ensures x == y && r == s
  {
    var x', y' := x + "|", y + "|";
    assert x + "|" + r == x' + ['/'] + r[1..] && y + "|" + s == y' + ['/'] + s[1..];
    Split(x', r[1..], y', s[1..], '/');
    assert x == x'[..|x'| - 1] && y == y'[..|y'| - 1];
    assert r == ['/'] + r[1..] && s == ['/'] + s[1..];
  }

  lemma DropPrefix(p: string, x: string, y: string)
    requires p + x == p + y
    ensures x == y
  {
    assert x == (p + x)[|p|..] && y == (p + y)[|p|..];
  }

  lemma FingerprintStep(roots: seq<Root>)
    requires |roots| > 0
    ensures |roots| == 1 ==> Fingerprint(roots) == Part(roots[0])
    ensures |roots| > 1 ==> Fingerprint(roots) == Part(roots[0]) + "|" + Fingerprint(roots[1..])
  {
    hide Part;
    assert Parts(roots)[1..] == Parts(roots[1..]);
  }

  lemma StartsWithSlash(roots: seq<Root>)
    requires |roots| > 0 && AreRoots(roots)
    ensures |Fingerprint(roots)| > 0 && Fingerprint(roots)[0] == '/'
  {
    hide NamesPart, Fingerprint;
    FingerprintStep(roots);
  }

  lemma HeadsAndTails(path: string, x: string, y: string, r: string, s: string)
    requires '/' !in x && '/' !in y && |r| > 0 && r[0] == '/' && |s| > 0 && s[0] == '/'
    ensures path + "\0" + x + "|" + r == path + "\0" + y + "|" + s <==> x == y && r == s
  {
    if path + "\0" + x + "|" + r == path + "\0" + y + "|" + s {
      var p := path + "\0";
      assert p + (x + "|" + r) == path + "\0" + x + "|" + r;
      assert p + (y + "|" + s) == path + "\0" + y + "|" + s;
      DropPrefix(p, x + "|" + r, y + "|" + s);
      SplitAtSlash(x, r, y, s);
    }
  }

  /** For the same readable roots, fingerprints are equal exactly when the entries are; only an absent root and one
      whose single entry is named like the placeholder look alike. */
  lemma {:induction false} FingerprintIsExact(a: seq<Root>, b: seq<Root>)
    requires AreReadable(a) && AreReadable(b) && AreRoots(a) && AreRoots(b)
    requires |a| == |b| && forall i :: 0 <= i < |a| ==> a[i].path == b[i].path
    ensures Fingerprint(a) == Fingerprint(b) <==> SameEntries(a, b)
    decreases |a|
  {
    hide Fingerprint, EntrySet, NamesPart, IsListing;
    if |a| > 0 {
      FingerprintStep(a);
      FingerprintStep(b);
      PartIsExact(a[0].listing, b[0].listing);
      NamesPartHasNoSlash(a[0].listing);
      NamesPartHasNoSlash(b[0].listing);
      var x, y := NamesPart(a[0].listing), NamesPart(b[0].listing);
      if |a| == 1 {
        if Part(a[0]) == Part(b[0]) {
          DropPrefix(a[0].path + "\0", x, y);
        }
      } else {
        StartsWithSlash(a[1..]);
        StartsWithSlash(b[1..]);
        FingerprintIsExact(a[1..], b[1..]);
        HeadsAndTails(a[0].path, x, y, Fingerprint(a[1..]), Fingerprint(b[1..]));
        SameEntriesStep(a, b);
      }
    }
  }

  lemma SameEntriesStep(a: seq<Root>, b: seq<Root>)
    requires |a| == |b| > 0
    ensures SameEntries(a, b) <==>
              a[0].path == b[0].path && EntrySet(a[0].listing) == EntrySet(b[0].listing)
              && SameEntries(a[1..], b[1..])
  {
    hide EntrySet;
    if SameEntries(a[1..], b[1..]) && a[0].path == b[0].path && EntrySet(a[0].listing) == EntrySet(b[0].listing) {
      forall i | 0 <= i < |a| ensures a[i].path == b[i].path && EntrySet(a[i].listing) == EntrySet(b[i].listing) {
        assert i > 0 ==> a[1..][i - 1] == a[i] && b[1..][i - 1] == b[i];
      }
    }
    if SameEntries(a, b) {
      forall i | 0 <= i < |a| - 1
        ensures a[1..][i].path == b[1..][i].path && EntrySet(a[1..][i].listing) == EntrySet(b[1..][i].listing)
      {
        assert a[1..][i] == a[i + 1] && b[1..][i] == b[i + 1];
      }
    }
  }

  /** Without an entry named like the placeholder, equal fingerprints mean equal listings up to the order of names. */
  lemma FingerprintIsInjective(a: seq<Root>, b: seq<Root>, i: int)
    requires AreReadable(a) && AreReadable(b) && AreRoots(a) && AreRoots(b)
    requires |a| == |b| && forall j :: 0 <= j < |a| ==> a[j].path == b[j].path
    requires 0 <= i < |a| && Fingerprint(a) == Fingerprint(b)
    requires (a[i].listing.Entries? ==> ABSENT !in a[i].listing.names)
             && (b[i].listing.Entries? ==> ABSENT !in b[i].listing.names)
    ensures a[i].listing == Absent <==> b[i].listing == Absent
    ensures a[i].listing.Entries? ==> multiset(a[i].listing.names) == multiset(b[i].listing.names)
  {
    hide Fingerprint;
    FingerprintIsExact(a, b);
    assert EntrySet(a[i].listing) == EntrySet(b[i].listing);
    assert a[i].listing == Absent ==> ABSENT in EntrySet(b[i].listing);
    assert b[i].listing == Absent ==> ABSENT in EntrySet(a[i].listing);
  }
}
