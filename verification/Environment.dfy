/**
 Rewriting process environments: `projectctl`'s one-key update, and the integration suite's in-place update
 by a whole map, which compacts a slice over the array it is still reading.
 */
module Environment {

  /**
   `strings.ToUpper` works character by character. All that matters here is that an equals sign, and
   nothing else, is mapped to an equals sign; `upper` is otherwise arbitrary.
   */
  predicate KeepsEquals(upper: char -> char) {
    upper('=') == '=' && forall c: char :: upper(c) == '=' ==> c == '='
  }

  function ToUpper(upper: char -> char, s: string): string {
    seq(|s|, i requires 0 <= i < |s| => upper(s[i]))
  }

  /** The entry is dropped by an update of `key`. */
  predicate Matches(upper: char -> char, entry: string, key: string) {
    ToUpper(upper, key) + "=" <= ToUpper(upper, entry)
  }

  function Entry(key: string, value: string): string {
    key + "=" + value
  }

  /** The entries an update of `key` keeps, in order. */
  function Keep(upper: char -> char, environment: seq<string>, key: string): seq<string> {
    if environment == [] then []
    else
      var last := environment[|environment| - 1];
      var before := Keep(upper, environment[..|environment| - 1], key);
      if Matches(upper, last, key) then before else before + [last]
  }

  /** The effect of the one-key update. */
  function Set(upper: char -> char, environment: seq<string>, key: string, value: string): seq<string> {
    Keep(upper, environment, key) + [Entry(key, value)]
  }

  // ---------------------------------------------------------------------------------------------
  // The two implementations
  // ---------------------------------------------------------------------------------------------

  /** `setEnvironment` of projectctl: a new slice of sufficient capacity, so no append ever reallocates. */
  method SetEnvironment(upper: char -> char, environment: array<string>, key: string, value: string)
    returns (result: array<string>, length: nat)
    ensures fresh(result) && length <= result.Length == environment.Length + 1
    ensures result[..length] == Set(upper, environment[..], key, value)
  {
    result := new string[environment.Length + 1](_ => "");
    length := 0;
    for i := 0 to environment.Length
      invariant length <= i
      invariant result[..length] == Keep(upper, environment[..i], key)
    {
      var entry := environment[i];
      assert environment[..i + 1][..i] == environment[..i];
      if !Matches(upper, entry, key) {
        result[length] := entry;
        length := length + 1;
      }
    }
    assert environment[..environment.Length] == environment[..];
    result[length] := Entry(key, value);
    length := length + 1;
  }

  /** Appending to a slice: in place while there is capacity, otherwise into a larger array. */
  method Append(backing: array<string>, length: nat, entry: string) returns (result: array<string>)
    requires length <= backing.Length
    modifies backing
    ensures length < result.Length && (result == backing || fresh(result))
    ensures result[..length + 1] == old(backing[..length]) + [entry]
  {
    if length < backing.Length {
      result := backing;
    } else {
      var capacity: nat :| capacity > length;
      result := new string[capacity](_ => "");
      for i := 0 to length
        invariant result[..i] == backing[..i]
        invariant fresh(result) && result != backing && backing[..] == old(backing[..])
      {
        result[i] := backing[i];
      }
    }
    result[length] := entry;
  }

  /**
   `filtered := result[:0]` followed by the filtering loop: the kept entries move to the front of the very
   array the loop is reading. Writes never overtake the entries still to be read.
   */
  method CompactInPlace(upper: char -> char, backing: array<string>, length: nat, key: string) returns (kept: nat)
    requires length <= backing.Length
    modifies backing
    ensures kept <= length && backing[..kept] == Keep(upper, old(backing[..length]), key)
  {
    kept := 0;
    ghost var was := backing[..length];
    for i := 0 to length
      invariant kept <= i
      invariant backing[i..length] == was[i..]
      invariant backing[..kept] == Keep(upper, was[..i], key)
    {
      var entry := backing[i];
      assert entry == was[i] by { assert backing[i..length][0] == was[i..][0]; }
      assert was[..i + 1][..i] == was[..i];
      assert backing[i + 1..length] == backing[i..length][1..] == was[i + 1..];
      if !Matches(upper, entry, key) {
        backing[kept] := entry;
        kept := kept + 1;
      }
    }
    assert was[..length] == was;
  }

  /** Updating by a list of keys, one after the other. */
  function SetAll(upper: char -> char, environment: seq<string>, keys: seq<string>, values: map<string, string>)
    : seq<string>
    requires forall k | k in keys :: k in values
  {
    if keys == [] then environment
    else
      var last := keys[|keys| - 1];
      Set(upper, SetAll(upper, environment, keys[..|keys| - 1], values), last, values[last])
  }

  ghost predicate Distinct(list: seq<string>) {
    forall i, j | 0 <= i < j < |list| :: list[i] != list[j]
  }

  /** `keys` lists every key of the map once. */
  ghost predicate Enumerates(keys: seq<string>, values: map<string, string>) {
    (forall k :: k in keys <==> k in values) && Distinct(keys)
  }

  /**
   `setEnvironment` of the integration suite. Go visits the map in an order of its own choosing; whatever
   order it was, the result is that of the one-key updates in that order, and the caller's slice is untouched.
   */
  method SetEnvironmentByMap(upper: char -> char, environment: array<string>, values: map<string, string>)
    returns (result: array<string>, length: nat, ghost order: seq<string>)
    ensures fresh(result) && length <= result.Length
    ensures Enumerates(order, values)
    ensures result[..length] == SetAll(upper, environment[..], order, values)
  {
    length := environment.Length;
    var spare :| 0 <= spare;
    result := new string[length + spare](i reads environment =>
      if 0 <= i < environment.Length then environment[i] else "");
    assert result[..length] == environment[..];
    order := [];
    var pending := values.Keys;
    while pending != {}
      invariant fresh(result) && length <= result.Length
      invariant pending <= values.Keys
      invariant forall k :: k in order <==> k in values && k !in pending
      invariant forall i, j | 0 <= i < j < |order| :: order[i] != order[j]
      invariant result[..length] == SetAll(upper, environment[..], order, values)
      decreases pending
    {
      var key :| key in pending;
      pending := pending - {key};
      length := CompactInPlace(upper, result, length, key);
      result := Append(result, length, Entry(key, values[key]));
      length := length + 1;
      assert (order + [key])[..|order|] == order;
      order := order + [key];
    }
  }

  // ---------------------------------------------------------------------------------------------
  // Laws of the one-key update
  // ---------------------------------------------------------------------------------------------

  lemma OwnEntryMatches(upper: char -> char, key: string, value: string)
    requires KeepsEquals(upper)
    ensures Matches(upper, Entry(key, value), key)
  {
    var e := ToUpper(upper, Entry(key, value));
    assert e[..|key| + 1] == ToUpper(upper, key) + "=";
  }

  /** The entries of a key, in order. */
  function Lookup(upper: char -> char, environment: seq<string>, key: string): seq<string> {
    if environment == [] then []
    else
      var last := environment[|environment| - 1];
      var before := Lookup(upper, environment[..|environment| - 1], key);
      if Matches(upper, last, key) then before + [last] else before
  }

  lemma LookupSnoc(upper: char -> char, environment: seq<string>, entry: string, key: string)
    ensures Lookup(upper, environment + [entry], key)
      == Lookup(upper, environment, key) + if Matches(upper, entry, key) then [entry] else []
    ensures Keep(upper, environment + [entry], key)
      == Keep(upper, environment, key) + if Matches(upper, entry, key) then [] else [entry]
  {
    assert (environment + [entry])[..|environment|] == environment;
  }

  /** No entry matches both keys. */
  ghost predicate Separate(upper: char -> char, a: string, b: string) {
    forall entry :: !(Matches(upper, entry, a) && Matches(upper, entry, b))
  }

  /** The first equals sign of an entry ends the only plain key it can match. */
  lemma PlainMatch(upper: char -> char, entry: string, key: string)
    requires KeepsEquals(upper) && '=' !in key && Matches(upper, entry, key)
    ensures var e := ToUpper(upper, entry);
      |key| < |e| && e[|key|] == '=' && e[..|key|] == ToUpper(upper, key) && '=' !in e[..|key|]
  {
    var e, p := ToUpper(upper, entry), ToUpper(upper, key) + "=";
    assert e[|key|] == p[|key|];
    assert e[..|key|] == p[..|key|] == ToUpper(upper, key);
  }

  lemma PlainMatchesAgree(upper: char -> char, entry: string, a: string, b: string)
    requires KeepsEquals(upper) && '=' !in a && '=' !in b
    requires Matches(upper, entry, a) && Matches(upper, entry, b)
    ensures ToUpper(upper, a) == ToUpper(upper, b)
  {
    var e := ToUpper(upper, entry);
    PlainMatch(upper, entry, a);
    PlainMatch(upper, entry, b);
    assert forall i | 0 <= i < |a| :: e[..|a|][i] == e[i];
    assert forall i | 0 <= i < |b| :: e[..|b|][i] == e[i];
  }

  /** Keys without an equals sign are separate as soon as they differ in upper case. */
  lemma PlainKeysSeparate(upper: char -> char, a: string, b: string)
    requires KeepsEquals(upper) && '=' !in a && '=' !in b && ToUpper(upper, a) != ToUpper(upper, b)
    ensures Separate(upper, a, b)
  {
    forall entry ensures !(Matches(upper, entry, a) && Matches(upper, entry, b)) {
      if Matches(upper, entry, a) && Matches(upper, entry, b) { PlainMatchesAgree(upper, entry, a, b); }
    }
  }

  lemma {:induction false} KeepDrops(upper: char -> char, environment: seq<string>, key: string, other: string)
    ensures Lookup(upper, Keep(upper, environment, key), key) == []
    ensures Separate(upper, key, other) ==>
      Lookup(upper, Keep(upper, environment, key), other) == Lookup(upper, environment, other)
  {
    if environment != [] {
      var before, last := environment[..|environment| - 1], environment[|environment| - 1];
      KeepDrops(upper, before, key, other);
      LookupSnoc(upper, Keep(upper, before, key), last, key);
      LookupSnoc(upper, Keep(upper, before, key), last, other);
    }
  }

  /** After an update exactly one entry matches the key, the new one; every separate key is as it was, in order. */
  lemma SetThenLookup(upper: char -> char, environment: seq<string>, key: string, value: string, other: string)
    requires KeepsEquals(upper)
    ensures Lookup(upper, Set(upper, environment, key, value), key) == [Entry(key, value)]
    ensures Separate(upper, key, other) ==>
      Lookup(upper, Set(upper, environment, key, value), other) == Lookup(upper, environment, other)
  {
    var entry := Entry(key, value);
    OwnEntryMatches(upper, key, value);
    KeepDrops(upper, environment, key, other);
    LookupSnoc(upper, Keep(upper, environment, key), entry, key);
    LookupSnoc(upper, Keep(upper, environment, key), entry, other);
  }

  lemma {:induction false} KeepAndLookupPartition(upper: char -> char, environment: seq<string>, key: string)
    ensures multiset(Keep(upper, environment, key)) + multiset(Lookup(upper, environment, key)) == multiset(environment)
  {
    if environment != [] {
      var before, last := environment[..|environment| - 1], environment[|environment| - 1];
      KeepAndLookupPartition(upper, before, key);
      assert environment == before + [last];
    }
  }

  /** An update exchanges the key's old entries for the new one, and loses or invents no other entry. */
  lemma SetConserves(upper: char -> char, environment: seq<string>, key: string, value: string)
    ensures multiset(Set(upper, environment, key, value)) + multiset(Lookup(upper, environment, key))
      == multiset(environment) + multiset{Entry(key, value)}
  {
    KeepAndLookupPartition(upper, environment, key);
  }

  lemma {:induction false} KeepTwice(upper: char -> char, environment: seq<string>, a: string, b: string)
    ensures Keep(upper, Keep(upper, environment, a), b) == Keep(upper, Keep(upper, environment, b), a)
    ensures ToUpper(upper, a) == ToUpper(upper, b) ==>
      Keep(upper, Keep(upper, environment, a), b) == Keep(upper, environment, b)
  {
    if environment != [] {
      var before, last := environment[..|environment| - 1], environment[|environment| - 1];
      KeepTwice(upper, before, a, b);
      LookupSnoc(upper, Keep(upper, before, a), last, b);
      LookupSnoc(upper, Keep(upper, before, b), last, a);
    }
  }

  /** A later update of the same key, in whatever case, undoes an earlier one completely. */
  lemma SetOverwrites(upper: char -> char, environment: seq<string>, a: string, v: string, b: string, w: string)
    requires KeepsEquals(upper) && ToUpper(upper, a) == ToUpper(upper, b)
    ensures Set(upper, Set(upper, environment, a, v), b, w) == Set(upper, environment, b, w)
  {
    OwnEntryMatches(upper, a, v);
    assert Matches(upper, Entry(a, v), b);
    LookupSnoc(upper, Keep(upper, environment, a), Entry(a, v), b);
    KeepTwice(upper, environment, a, b);
  }

  /** Both updates of `integrationEnvironment` survive, whatever the environment held before. */
  lemma IntegrationEnvironmentKeepsBoth(upper: char -> char, environment: seq<string>, python: string, path: string)
    requires KeepsEquals(upper) && ToUpper(upper, "GROUNDEDSEARCH_PYTHON") != ToUpper(upper, "PYTHONPATH")
    ensures var result := Set(upper, Set(upper, environment, "GROUNDEDSEARCH_PYTHON", python), "PYTHONPATH", path);
      && Lookup(upper, result, "GROUNDEDSEARCH_PYTHON") == ["GROUNDEDSEARCH_PYTHON=" + python]
      && Lookup(upper, result, "PYTHONPATH") == ["PYTHONPATH=" + path]
  {
    var a, b := "GROUNDEDSEARCH_PYTHON", "PYTHONPATH";
    PlainKeysSeparate(upper, a, b);
    assert Separate(upper, b, a);
    SetThenLookup(upper, environment, a, python, a);
    SetThenLookup(upper, Set(upper, environment, a, python), b, path, a);
    assert a + "=" == "GROUNDEDSEARCH_PYTHON=" && b + "=" == "PYTHONPATH=";
  }

  // ---------------------------------------------------------------------------------------------
  // Order of a batch
  // ---------------------------------------------------------------------------------------------

  lemma ExchangeEntries(rest: seq<string>, x: string, y: string, drops: bool, dropped: bool)
    ensures multiset(rest + (if drops then [] else [x]) + [y]) == multiset(rest + (if dropped then [] else [y]) + [x])
      <==> (drops == dropped && (drops ==> x == y))
  {
    var ab, ba := rest + (if drops then [] else [x]) + [y], rest + (if dropped then [] else [y]) + [x];
    assert multiset(ab) == multiset(rest) + (if drops then multiset{} else multiset{x}) + multiset{y};
    assert multiset(ba) == multiset(rest) + (if dropped then multiset{} else multiset{y}) + multiset{x};
    assert |multiset(ab)| - |multiset(rest)| == (if drops then 0 else 1) + 1;
    assert |multiset(ba)| - |multiset(rest)| == (if dropped then 0 else 1) + 1;
    assert drops && dropped ==> multiset(ab)[x] - multiset(rest)[x] == if x == y then 1 else 0;
  }

  /**
   Two updates can be exchanged, up to the order of the entries, exactly when neither drops the other's
   entry, or both do and the entries are the same text.
   */
  lemma ExchangeIff(upper: char -> char, environment: seq<string>, a: string, v: string, b: string, w: string)
    ensures var ab := Set(upper, Set(upper, environment, a, v), b, w);
      var ba := Set(upper, Set(upper, environment, b, w), a, v);
      var drops, dropped := Matches(upper, Entry(a, v), b), Matches(upper, Entry(b, w), a);
      multiset(ab) == multiset(ba) <==> (drops == dropped && (drops ==> Entry(a, v) == Entry(b, w)))
  {
    var x, y := Entry(a, v), Entry(b, w);
    LookupSnoc(upper, Keep(upper, environment, a), x, b);
    LookupSnoc(upper, Keep(upper, environment, b), y, a);
    KeepTwice(upper, environment, a, b);
    ExchangeEntries(Keep(upper, Keep(upper, environment, a), b), x, y, Matches(upper, x, b), Matches(upper, y, a));
  }

  /** No update of the batch drops the entry of another. */
  predicate Independent(upper: char -> char, values: map<string, string>) {
    forall a, b | a in values && b in values && a != b :: !Matches(upper, Entry(a, values[a]), b)
  }

  /** An entry that the update of another key drops is the same text as that key's own entry. */
  predicate Compatible(upper: char -> char, values: map<string, string>) {
    forall a, b | a in values && b in values && a != b && Matches(upper, Entry(a, values[a]), b) ::
      Entry(a, values[a]) == Entry(b, values[b])
  }

  /** Keys without an equals sign and distinct in upper case make an independent batch. */
  lemma PlainBatchIndependent(upper: char -> char, values: map<string, string>)
    requires KeepsEquals(upper)
    requires forall k | k in values :: '=' !in k
    requires forall a, b | a in values && b in values && a != b :: ToUpper(upper, a) != ToUpper(upper, b)
    ensures Independent(upper, values) && Compatible(upper, values)
  {
    forall a, b | a in values && b in values && a != b ensures !Matches(upper, Entry(a, values[a]), b) {
      OwnEntryMatches(upper, a, values[a]);
      PlainKeysSeparate(upper, a, b);
    }
  }

  /** The entries no key of the batch drops, in order. */
  function KeepAll(upper: char -> char, environment: seq<string>, keys: seq<string>): seq<string> {
    if keys == [] then environment else Keep(upper, KeepAll(upper, environment, keys[..|keys| - 1]), keys[|keys| - 1])
  }

  lemma {:induction false} KeepConcat(upper: char -> char, a: seq<string>, b: seq<string>, key: string)
    ensures Keep(upper, a + b, key) == Keep(upper, a, key) + Keep(upper, b, key)
  {
    if b == [] {
      assert a + b == a;
    } else {
      var before, last := b[..|b| - 1], b[|b| - 1];
      KeepConcat(upper, a, before, key);
      assert a + b == (a + before) + [last];
      LookupSnoc(upper, a + before, last, key);
    }
  }

  /** A batch leaves the untouched entries in their order, followed by what it makes of an empty environment. */
  lemma {:induction false} SetAllSplits(upper: char -> char, environment: seq<string>, keys: seq<string>,
                                        values: map<string, string>)
    requires forall k | k in keys :: k in values
    ensures SetAll(upper, environment, keys, values) ==
      KeepAll(upper, environment, keys) + SetAll(upper, [], keys, values)
  {
    if keys == [] {
      assert environment + [] == environment;
    } else {
      var before, last := keys[..|keys| - 1], keys[|keys| - 1];
      SetAllSplits(upper, environment, before, values);
      KeepConcat(upper, KeepAll(upper, environment, before), SetAll(upper, [], before, values), last);
    }
  }

  /** What survives a batch depends on the set of keys only. */
  lemma {:induction false} KeepAllByEntry(upper: char -> char, environment: seq<string>, keys: seq<string>)
    ensures KeepAll(upper, environment, keys) ==
      if environment == [] then []
      else
        var last := environment[|environment| - 1];
        KeepAll(upper, environment[..|environment| - 1], keys)
          + if exists k :: k in keys && Matches(upper, last, k) then [] else [last]
    decreases |keys|
  {
    if keys == [] {
      if environment != [] {
        assert environment == environment[..|environment| - 1] + [environment[|environment| - 1]];
      }
    } else {
      var before, key := keys[..|keys| - 1], keys[|keys| - 1];
      KeepAllByEntry(upper, environment, before);
      assert forall k :: k in keys <==> k in before || k == key;
      if environment != [] {
        var kept := KeepAll(upper, environment[..|environment| - 1], before);
        LookupSnoc(upper, kept, environment[|environment| - 1], key);
        assert kept + [] == kept;
      }
    }
  }

  lemma {:induction false} KeepAllBySet(upper: char -> char, environment: seq<string>,
                                        some: seq<string>, other: seq<string>)
    requires forall k :: k in some <==> k in other
    ensures KeepAll(upper, environment, some) == KeepAll(upper, environment, other)
    decreases |environment|
  {
    KeepAllByEntry(upper, environment, some);
    KeepAllByEntry(upper, environment, other);
    if environment != [] { KeepAllBySet(upper, environment[..|environment| - 1], some, other); }
  }

  lemma {:induction false} CountOnce(list: seq<string>, x: string)
    requires Distinct(list)
    ensures multiset(list)[x] == if x in list then 1 else 0
  {
    if list != [] {
      assert list == list[..|list| - 1] + [list[|list| - 1]];
      CountOnce(list[..|list| - 1], x);
    }
  }

  lemma SameElements(some: seq<string>, other: seq<string>)
    requires Distinct(some) && Distinct(other) && forall x :: x in some <==> x in other
    ensures multiset(some) == multiset(other)
  {
    forall x: string ensures multiset(some)[x] == multiset(other)[x] {
      CountOnce(some, x);
      CountOnce(other, x);
    }
  }

  lemma {:induction false} KeepMembers(upper: char -> char, environment: seq<string>, key: string)
    ensures forall e :: e in Keep(upper, environment, key) <==> e in environment && !Matches(upper, e, key)
    ensures Distinct(environment) ==> Distinct(Keep(upper, environment, key))
  {
    if environment != [] {
      var before, last := environment[..|environment| - 1], environment[|environment| - 1];
      KeepMembers(upper, before, key);
      assert environment == before + [last];
    }
  }

  /** The batch's own entries under a compatible map: every distinct text survives, and does so once. */
  lemma {:induction false} OwnEntriesOnce(upper: char -> char, keys: seq<string>, values: map<string, string>)
    requires forall k | k in keys :: k in values
    requires KeepsEquals(upper) && Compatible(upper, values) && Distinct(keys)
    ensures Distinct(SetAll(upper, [], keys, values))
    ensures forall e :: e in SetAll(upper, [], keys, values) <==> exists k :: k in keys && e == Entry(k, values[k])
  {
    if keys != [] {
      var before, last := keys[..|keys| - 1], keys[|keys| - 1];
      var entries, own := SetAll(upper, [], before, values), Entry(last, values[last]);
      assert keys == before + [last];
      OwnEntriesOnce(upper, before, values);
      KeepMembers(upper, entries, last);
      OwnEntryMatches(upper, last, values[last]);
      forall k | k in before ensures Matches(upper, Entry(k, values[k]), last) ==> Entry(k, values[k]) == own {
        assert k in keys && k != last;
      }
    }
  }

  lemma PrefixesNest(a: string, b: string, whole: string)
    requires a <= whole && b <= whole
    ensures a <= b || b <= a
  {
    if |a| <= |b| {
      assert a == whole[..|b|][..|a|];
    } else {
      assert b == whole[..|a|][..|b|];
    }
  }

  /**
   When no entry can match both keys: neither key, upper-cased and followed by the equals sign, begins the
   other.
   */
  lemma SeparateIff(upper: char -> char, a: string, b: string)
    requires KeepsEquals(upper)
    ensures Separate(upper, a, b) <==>
      && !(ToUpper(upper, a) + "=" <= ToUpper(upper, b) + "=")
      && !(ToUpper(upper, b) + "=" <= ToUpper(upper, a) + "=")
  {
    assert ToUpper(upper, a + "=") == ToUpper(upper, a) + "=";
    assert ToUpper(upper, b + "=") == ToUpper(upper, b) + "=";
    if Separate(upper, a, b) {
      assert !(Matches(upper, a + "=", a) && Matches(upper, a + "=", b));
      assert !(Matches(upper, b + "=", a) && Matches(upper, b + "=", b));
    } else {
      var entry :| Matches(upper, entry, a) && Matches(upper, entry, b);
      PrefixesNest(ToUpper(upper, a) + "=", ToUpper(upper, b) + "=", ToUpper(upper, entry));
    }
  }

  /**
   After a batch of separate keys, in any order, each key of the batch is found exactly once, with its own
   value, and every key separate from all of them has the entries it had, in order.
   */
  lemma {:induction false} SetAllThenLookup(upper: char -> char, environment: seq<string>, keys: seq<string>,
                                            values: map<string, string>, other: string)
    requires KeepsEquals(upper) && Distinct(keys) && forall k | k in keys :: k in values
    requires forall a, b | a in keys && b in keys && a != b :: Separate(upper, a, b)
    ensures other in keys ==>
      Lookup(upper, SetAll(upper, environment, keys, values), other) == [Entry(other, values[other])]
    ensures other !in keys && (forall k | k in keys :: Separate(upper, k, other)) ==>
      Lookup(upper, SetAll(upper, environment, keys, values), other) == Lookup(upper, environment, other)
  {
    if keys != [] {
      var before, last := keys[..|keys| - 1], keys[|keys| - 1];
      assert keys == before + [last];
      SetAllThenLookup(upper, environment, before, values, other);
      SetThenLookup(upper, SetAll(upper, environment, before, values), last, values[last], other);
      assert other in before ==> Separate(upper, last, other);
    }
  }

  lemma ListKeys(keys: set<string>) returns (list: seq<string>)
    ensures Distinct(list) && forall k :: k in list <==> k in keys
  {
    if keys == {} {
      list := [];
    } else {
      var key :| key in keys;
      var rest := ListKeys(keys - {key});
      list := rest + [key];
    }
  }

  lemma EnumerationEnding(values: map<string, string>, last: string) returns (keys: seq<string>)
    requires last in values
    ensures Enumerates(keys, values) && keys != [] && keys[|keys| - 1] == last
  {
    var rest := ListKeys(values.Keys - {last});
    keys := rest + [last];
  }

  /** Whatever the map and the order, the entries no key drops come first, in their order. */
  lemma BatchKeepsPrefix(upper: char -> char, environment: seq<string>, values: map<string, string>,
                         some: seq<string>, other: seq<string>)
    requires Enumerates(some, values) && Enumerates(other, values)
    ensures KeepAll(upper, environment, some) <= SetAll(upper, environment, other, values)
  {
    SetAllSplits(upper, environment, other, values);
    KeepAllBySet(upper, environment, some, other);
  }

  /** Go's choice of iteration order does not show in the multiset of the resulting entries. */
  ghost predicate OrderFree(upper: char -> char, environment: seq<string>, values: map<string, string>) {
    forall some, other | Enumerates(some, values) && Enumerates(other, values) ::
      multiset(SetAll(upper, environment, some, values)) == multiset(SetAll(upper, environment, other, values))
  }

  lemma CompatibleIsOrderFree(upper: char -> char, environment: seq<string>, values: map<string, string>,
                              some: seq<string>, other: seq<string>)
    requires KeepsEquals(upper) && Compatible(upper, values)
    requires Enumerates(some, values) && Enumerates(other, values)
    ensures multiset(SetAll(upper, environment, some, values)) == multiset(SetAll(upper, environment, other, values))
  {
    SetAllSplits(upper, environment, some, values);
    SetAllSplits(upper, environment, other, values);
    KeepAllBySet(upper, environment, some, other);
    OwnEntriesOnce(upper, some, values);
    OwnEntriesOnce(upper, other, values);
    SameElements(SetAll(upper, [], some, values), SetAll(upper, [], other, values));
  }

  /** The order ending in `b` loses the entry that the order ending in `a` has. */
  lemma IncompatibleOrders(upper: char -> char, environment: seq<string>, values: map<string, string>,
                           a: string, b: string) returns (some: seq<string>, other: seq<string>)
    requires a in values && b in values
    requires Matches(upper, Entry(a, values[a]), b) && Entry(a, values[a]) != Entry(b, values[b])
    ensures Enumerates(some, values) && Enumerates(other, values)
    ensures Entry(a, values[a]) in SetAll(upper, environment, some, values)
    ensures Entry(a, values[a]) !in SetAll(upper, environment, other, values)
  {
    some := EnumerationEnding(values, a);
    other := EnumerationEnding(values, b);
    KeepMembers(upper, SetAll(upper, environment, other[..|other| - 1], values), b);
  }

  /**
   For every environment: the result of a whole batch is independent of the order exactly when each entry that
   another key of the batch drops is, as a text, that key's own entry.
   */
  lemma BatchOrderIrrelevantIff(upper: char -> char, environment: seq<string>, values: map<string, string>)
    requires KeepsEquals(upper)
    ensures OrderFree(upper, environment, values) <==> Compatible(upper, values)
  {
    if Compatible(upper, values) {
      forall some, other | Enumerates(some, values) && Enumerates(other, values)
        ensures multiset(SetAll(upper, environment, some, values))
          == multiset(SetAll(upper, environment, other, values))
      {
        CompatibleIsOrderFree(upper, environment, values, some, other);
      }
    } else {
      var a, b :| a in values && b in values && a != b
        && Matches(upper, Entry(a, values[a]), b) && Entry(a, values[a]) != Entry(b, values[b]);
      var some, other := IncompatibleOrders(upper, environment, values, a, b);
      assert multiset(SetAll(upper, environment, some, values))[Entry(a, values[a])] > 0;
    }
  }

  /** Two batches whose keys drop each other's entries: the same text twice, and two different texts. */
  lemma DroppedEntries(upper: char -> char)
    requires KeepsEquals(upper)
    ensures var same := map["X" := "Y=Z", "X=Y" := "Z"];
      !Independent(upper, same) && forall environment :: OrderFree(upper, environment, same)
    ensures var different := map["X" := "Y=Z", "X=Y" := "W"];
      forall environment :: !OrderFree(upper, environment, different)
  {
    var same, different := map["X" := "Y=Z", "X=Y" := "Z"], map["X" := "Y=Z", "X=Y" := "W"];
    assert Entry("X", "Y=Z") == "X=Y=Z" == Entry("X=Y", "Z");
    assert Entry("X=Y", "W") == "X=Y=W";
    OwnEntryMatches(upper, "X=Y", "Z");
    assert Compatible(upper, same);
    assert "X" in same && "X=Y" in same && "X" != "X=Y" && Matches(upper, Entry("X", same["X"]), "X=Y");
    assert "X=Y=Z"[4] != "X=Y=W"[4];
    assert "X" in different && "X=Y" in different && Matches(upper, Entry("X", different["X"]), "X=Y");
    forall environment ensures OrderFree(upper, environment, same) && !OrderFree(upper, environment, different) {
      BatchOrderIrrelevantIff(upper, environment, same);
      BatchOrderIrrelevantIff(upper, environment, different);
    }
  }
}
