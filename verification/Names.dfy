/**
 Owner labels: the distinct names behind an IP, sorted and joined. Go map iteration
 feeds the names in any order, so what matters is that the label depends on the set only.
 */
module Names {

  // ---------- Order on strings ----------

  predicate Before(a: string, b: string) {
    if b == "" then false
    else if a == "" then true
    else a[0] < b[0] || (a[0] == b[0] && Before(a[1..], b[1..]))
  }

  /** The first k characters agree, and then a ends or has the smaller character. */
  predicate DiffersAt(a: string, b: string, k: nat) {
    k < |b| && k <= |a| && a[..k] == b[..k] && (k == |a| || a[k] < b[k])
  }

  /** The order is the one of the first difference. */
  lemma {:induction false} BeforeIsFirstDifference(a: string, b: string)
    ensures Before(a, b) <==> exists k: nat :: DiffersAt(a, b, k)
  {
    if b != "" && a != "" && a[0] == b[0] {
      BeforeIsFirstDifference(a[1..], b[1..]);
      if k: nat :| DiffersAt(a[1..], b[1..], k) {
        assert a[..k + 1] == [a[0]] + a[1..][..k] && b[..k + 1] == [b[0]] + b[1..][..k];
        assert DiffersAt(a, b, k + 1);
      }
      if k: nat :| DiffersAt(a, b, k) {
        assert k > 0;
        assert a[1..][..k - 1] == a[..k][1..] && b[1..][..k - 1] == b[..k][1..];
        assert DiffersAt(a[1..], b[1..], k - 1);
      }
    } else if b != "" {
      if a == "" || a[0] < b[0] {
        assert DiffersAt(a, b, 0);
      }
      if k: nat :| DiffersAt(a, b, k) {
        if a != "" {
          FirstCharacterDecides(a, b, k);
        }
      }
    }
  }

  lemma FirstCharacterDecides(a: string, b: string, k: nat)
    requires DiffersAt(a, b, k) && a != ""
    ensures if k == 0 then a[0] < b[0] else a[0] == b[0]
  {
    assert k > 0 ==> a[..k][0] == a[0] && b[..k][0] == b[0];
  }

  lemma {:induction false} BeforeIsTotal(a: string, b: string)
    ensures a == b || Before(a, b) || Before(b, a)
    ensures !Before(a, a)
  {
    if a != "" {
      BeforeIsTotal(a[1..], a[1..]);
      if b != "" && a[0] == b[0] {
        BeforeIsTotal(a[1..], b[1..]);
        assert a == [a[0]] + a[1..] && b == [b[0]] + b[1..];
      }
    }
  }

  lemma {:induction false} BeforeIsTransitive(a: string, b: string, c: string)
    requires Before(a, b) && Before(b, c)
    ensures Before(a, c)
  {
    if a != "" && a[0] == b[0] && b[0] == c[0] {
      BeforeIsTransitive(a[1..], b[1..], c[1..]);
    }
  }

  // ---------- Sorting (sort.Strings and sort.Slice) ----------

  ghost predicate Ascending<T(!new)>(xs: seq<T>, key: T -> string) {
    forall i, j :: 0 <= i < j < |xs| ==> !Before(key(xs[j]), key(xs[i]))
  }

  function Insert<T(!new)>(x: T, xs: seq<T>, key: T -> string): (r: seq<T>)
    requires Ascending(xs, key)
    ensures Ascending(r, key) && multiset(r) == multiset(xs) + multiset{x}
  {
    if xs == [] then [x]
    else if Before(key(xs[0]), key(x)) then
      var r := Insert(x, xs[1..], key);
      assert xs == [xs[0]] + xs[1..];
      InsertBelow(xs, x, r, key);
      [xs[0]] + r
    else
      HeadIsLeast(x, xs, key);
      assert xs == [xs[0]] + xs[1..];
      [x] + xs
  }

  lemma InsertBelow<T(!new)>(xs: seq<T>, x: T, r: seq<T>, key: T -> string)
    requires xs != [] && Ascending(xs, key) && Before(key(xs[0]), key(x))
    requires Ascending(r, key) && multiset(r) == multiset(xs[1..]) + multiset{x}
    ensures Ascending([xs[0]] + r, key)
  {
    forall j | 0 <= j < |r|
      ensures !Before(key(r[j]), key(xs[0]))
    {
      assert r[j] in multiset(xs[1..]) + multiset{x};
      if r[j] == x {
        if Before(key(x), key(xs[0])) {
          BeforeIsTransitive(key(x), key(xs[0]), key(x));
          BeforeIsTotal(key(x), key(x));
        }
      } else {
        assert r[j] in xs[1..];
      }
    }
  }

  lemma HeadIsLeast<T(!new)>(x: T, xs: seq<T>, key: T -> string)
    requires xs != [] && Ascending(xs, key) && !Before(key(xs[0]), key(x))
    ensures Ascending([x] + xs, key)
  {
    forall j | 0 <= j < |xs|
      ensures !Before(key(xs[j]), key(x))
    {
      if Before(key(xs[j]), key(x)) && j > 0 {
        BeforeIsTotal(key(xs[0]), key(xs[j]));
        if Before(key(xs[0]), key(xs[j])) {
          BeforeIsTransitive(key(xs[0]), key(xs[j]), key(x));
        }
      }
    }
  }

  function SortBy<T(!new)>(xs: seq<T>, key: T -> string): (r: seq<T>)
    ensures Ascending(r, key) && multiset(r) == multiset(xs)
  {
    if xs == [] then []
    else
      assert xs == [xs[0]] + xs[1..];
      Insert(xs[0], SortBy(xs[1..], key), key)
  }

  // ---------- Labels ----------

  /** The names of a set, each once, in ascending order. */
  ghost predicate Lists(xs: seq<string>, names: set<string>) {
    && (forall i, j :: 0 <= i < j < |xs| ==> Before(xs[i], xs[j]))
    && (forall n :: n in xs <==> n in names)
  }

  lemma {:induction false} ListingIsUnique(xs: seq<string>, ys: seq<string>, names: set<string>)
    requires Lists(xs, names) && Lists(ys, names)
    ensures xs == ys
  {
    assert xs != [] ==> xs[0] in names;
    assert ys != [] ==> ys[0] in names;
    if xs != [] && ys != [] {
      HeadsAgree(xs, ys, names);
      TailLists(xs, names);
      TailLists(ys, names);
      ListingIsUnique(xs[1..], ys[1..], names - {xs[0]});
      assert xs == [xs[0]] + xs[1..] && ys == [ys[0]] + ys[1..];
    }
  }

  lemma HeadsAgree(xs: seq<string>, ys: seq<string>, names: set<string>)
    requires Lists(xs, names) && Lists(ys, names) && xs != [] && ys != []
    ensures xs[0] == ys[0]
  {
    assert xs[0] in names && ys[0] in names;
    assert xs[0] in ys && ys[0] in xs;
    if xs[0] != ys[0] {
      BeforeIsTransitive(xs[0], ys[0], xs[0]);
      BeforeIsTotal(xs[0], xs[0]);
    }
  }

  lemma TailLists(xs: seq<string>, names: set<string>)
    requires Lists(xs, names) && xs != []
    ensures Lists(xs[1..], names - {xs[0]})
  {
    BeforeIsTotal(xs[0], xs[0]);
    assert xs == [xs[0]] + xs[1..];
  }

  function Self(n: string): string { n }

  lemma RepeatsCount<T>(xs: seq<T>, i: nat, j: nat)
    requires i < j < |xs|
    ensures xs[i] == xs[j] ==> multiset(xs)[xs[i]] >= 2
  {
    assert xs == xs[..j] + xs[j..];
    assert xs[i] in xs[..j] && xs[j] in xs[j..];
  }

  lemma SortedSetLists(xs: seq<string>, names: set<string>)
    requires Ascending(xs, Self) && multiset(xs) == multiset(names)
    ensures Lists(xs, names)
  {
    forall i, j | 0 <= i < j < |xs|
      ensures Before(xs[i], xs[j])
    {
      BeforeIsTotal(xs[i], xs[j]);
      RepeatsCount(xs, i, j);
    }
    forall n
      ensures n in xs <==> n in names
    {
      assert n in xs <==> n in multiset(xs);
    }
  }

  /** The listing of a set. */
  ghost function Listing(names: set<string>): seq<string> {
    if exists xs :: Lists(xs, names) then
      var xs :| Lists(xs, names);
      xs
    else []
  }

  lemma ListingLists(names: set<string>)
    ensures Lists(Listing(names), names)
  {
    SortedSetLists(SortBy(AnyOrder(names), Self), names);
  }

  ghost function AnyOrder(names: set<string>): (xs: seq<string>)
    ensures multiset(xs) == multiset(names)
  {
    if names == {} then []
    else
      var n :| n in names;
      assert multiset(names) == multiset(names - {n}) + multiset{n};
      [n] + AnyOrder(names - {n})
  }

  function Joined(xs: seq<string>): string {
    if xs == [] then "" else if |xs| == 1 then xs[0] else xs[0] + "、" + Joined(xs[1..])
  }

  /** Joining is cutting anywhere and putting the separator in between. */
  lemma {:induction false} JoinedSplits(xs: seq<string>, k: nat)
    ensures |xs| == 1 ==> Joined(xs) == xs[0]
    ensures 0 < k < |xs| ==> Joined(xs) == Joined(xs[..k]) + "、" + Joined(xs[k..])
  {
    if 1 < k < |xs| {
      JoinedSplits(xs[1..], k - 1);
      assert xs[1..][..k - 1] == xs[..k][1..] && xs[1..][k - 1..] == xs[k..];
    } else if k == 1 && k < |xs| {
      assert xs[..1] == [xs[0]];
    }
  }

  const SEPARATOR: char := '、'

  /** The parts of a text between separators. */
  function Parts(text: string): (ps: seq<string>)
    ensures ps != []
  {
    if text == "" then [""]
    else
      var rest := Parts(text[1..]);
      if text[0] == SEPARATOR then [""] + rest else [[text[0]] + rest[0]] + rest[1..]
  }

  predicate IsPlain(name: string) { SEPARATOR !in name }

  lemma {:induction false} PartsOfPlain(name: string)
    requires IsPlain(name)
    ensures Parts(name) == [name]
  {
    if name != "" {
      PartsOfPlain(name[1..]);
      assert name == [name[0]] + name[1..];
    }
  }

  lemma {:induction false} PartsOfFront(name: string, text: string)
    requires IsPlain(name)
    ensures Parts(name + [SEPARATOR] + text) == [name] + Parts(text)
  {
    var whole := name + [SEPARATOR] + text;
    if name == "" {
      assert whole[1..] == text;
    } else {
      PartsOfFront(name[1..], text);
      assert whole[1..] == name[1..] + [SEPARATOR] + text;
      assert name == [name[0]] + name[1..];
    }
  }

  lemma {:induction false} PartsOfJoined(xs: seq<string>)
    requires xs != [] && forall x <- xs :: IsPlain(x)
    ensures Parts(Joined(xs)) == xs
  {
    if |xs| == 1 {
      PartsOfPlain(xs[0]);
    } else {
      PartsOfJoined(xs[1..]);
      PartsOfFront(xs[0], Joined(xs[1..]));
      assert xs == [xs[0]] + xs[1..];
    }
  }

  /** The label of a set of names. */
  ghost function Label(names: set<string>): string {
    Joined(Listing(names))
  }

  predicate AllPlain(names: set<string>) { names != {} && forall n <- names :: IsPlain(n) }

  /** The label of names without separators has exactly these names for its parts, each once and in order. */
  lemma LabelListsNames(names: set<string>)
    requires AllPlain(names)
    ensures Lists(Parts(Label(names)), names)
  {
    ListingLists(names);
    assert Listing(names) == [] ==> forall n <- names :: n in Listing(names);
    PartsOfJoined(Listing(names));
  }

  /** So it determines them. */
  lemma LabelDeterminesNames(a: set<string>, b: set<string>)
    requires AllPlain(a) && AllPlain(b) && Label(a) == Label(b)
    ensures a == b
  {
    LabelListsNames(a);
    LabelListsNames(b);
  }

  lemma LabelOfNone()
    ensures Label({}) == ""
  {
    ListingLists({});
    assert Lists([], {});
    ListingIsUnique(Listing({}), [], {});
  }

  /** Sorts and joins names collected in any order, each once. */
  method JoinSorted(out: seq<string>, ghost names: set<string>) returns (text: string)
    requires multiset(out) == multiset(names)
    ensures text == Label(names)
    ensures AllPlain(names) ==> Lists(Parts(text), names)
    ensures names == {} ==> text == ""
  {
    SortedSetLists(SortBy(out, Self), names);
    ListingLists(names);
    ListingIsUnique(SortBy(out, Self), Listing(names), names);
    if AllPlain(names) {
      LabelListsNames(names);
    } else if names == {} {
      LabelOfNone();
    }
    return Joined(SortBy(out, Self));
  }

  method JoinNames(names: set<string>) returns (text: string)
    ensures text == Label(names)
    ensures AllPlain(names) ==> Lists(Parts(text), names)
    ensures names == {} ==> text == ""
  {
    var out: seq<string> := [];
    var rest := names;
    while rest != {}
      invariant multiset(out) + multiset(rest) == multiset(names)
    {
      var n :| n in rest;
      assert multiset(rest) == multiset(rest - {n}) + multiset{n};
      out := out + [n];
      rest := rest - {n};
    }
    text := JoinSorted(out, names);
  }

  function DisplayName(name: string, openId: string): (display: string)
    ensures display in [name, openId]
    ensures display == "" ==> name == "" && openId == ""
    ensures name != "" ==> display == name
  {
    if name != "" then name else openId
  }
}
