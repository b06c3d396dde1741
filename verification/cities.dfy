/** The city exercise (TEMA1 ejercicio 8): a JavaScript Map from city name to number of
    inhabitants, changed by the page's buttons. A Map keeps its keys unique and remembers
    the order in which they were first inserted; `set` on an existing key replaces the
    value in place, `delete` removes the key, and iteration follows insertion order. The
    Map is modelled as a sequence of entries with unique names. */
module Cities {
  import opened Text
  import opened Wrappers

  datatype City = City(name: string, population: int)

  // ---------------------------------------------------------------- the Map as a sequence

  /** No two entries share a key. */
  predicate UniqueNames(e: seq<City>) {
    forall i, j | 0 <= i < j < |e| :: e[i].name != e[j].name
  }

  /** The keys, in iteration order. */
  function Names(e: seq<City>): (r: seq<string>)
    ensures |r| == |e| && forall k | 0 <= k < |e| :: r[k] == e[k].name
  {
    seq(|e|, k requires 0 <= k < |e| => e[k].name)
  }

  /** The set of keys. */
  ghost function NameSet(e: seq<City>): set<string> {
    set k | 0 <= k < |e| :: e[k].name
  }

  /** Position of the entry for name, or |e| when there is none. */
  function Find(e: seq<City>, name: string): (i: nat)
    ensures i <= |e| && (i < |e| ==> e[i].name == name)
    ensures forall k | 0 <= k < i :: e[k].name != name
  {
    if e == [] || e[0].name == name then 0 else 1 + Find(e[1..], name)
  }

  /** Map.prototype.has. */
  predicate Has(e: seq<City>, name: string) {
    Find(e, name) < |e|
  }

  /** Map.prototype.get, with None for undefined. */
  function Get(e: seq<City>, name: string): Option<int> {
    var i := Find(e, name);
    if i < |e| then Some(e[i].population) else None
  }

  /** Map.prototype.set: an existing key keeps its place and takes the new value; a new
      key goes to the end. */
  function SetEntry(e: seq<City>, name: string, population: int): seq<City> {
    var i := Find(e, name);
    if i < |e| then e[i := City(name, population)] else e + [City(name, population)]
  }

  /** Map.prototype.delete: the entry for name, if any, is taken out; the others keep their order. */
  function DeleteEntry(e: seq<City>, name: string): seq<City> {
    var i := Find(e, name);
    if i < |e| then e[..i] + e[i + 1..] else e
  }

  /** A reference for deletion: every entry named name dropped, one by one. */
  function Without(e: seq<City>, name: string): seq<City> {
    if e == [] then []
    else if e[0].name == name then Without(e[1..], name)
    else [e[0]] + Without(e[1..], name)
  }

  // ---------------------------------------------------------------- lemmas about the Map

  /** Has agrees with the set of keys. */
  lemma HasIffInNames(e: seq<City>, name: string)
    ensures Has(e, name) <==> name in NameSet(e)
  {
    if name in NameSet(e) {
      var k :| 0 <= k < |e| && e[k].name == name;
      assert Find(e, name) <= k;
    }
  }

  /** Under unique keys, the entry holding name is the one Find returns. */
  lemma FindUnique(e: seq<City>, name: string, j: int)
    requires UniqueNames(e) && 0 <= j < |e| && e[j].name == name
    ensures Find(e, name) == j
  {
  }

  /** Find returns j when j is the first position holding name, or |e| when none does. */
  lemma FindIs(e: seq<City>, name: string, j: int)
    requires 0 <= j <= |e| && (j < |e| ==> e[j].name == name)
    requires forall k | 0 <= k < j :: e[k].name != name
    ensures Find(e, name) == j
  {
  }

  /** With unique keys the number of entries is the number of keys. */
  lemma {:induction false} SizeIsKeyCount(e: seq<City>)
    requires UniqueNames(e)
    ensures |NameSet(e)| == |e|
    decreases |e|
  {
    if e != [] {
      var rest := e[1..];
      SizeIsKeyCount(rest);
      assert NameSet(e) == {e[0].name} + NameSet(rest) by {
        forall n | n in NameSet(e) ensures n in {e[0].name} + NameSet(rest) {
          var k :| 0 <= k < |e| && e[k].name == n;
          if k > 0 {
            assert rest[k - 1].name == n;
          }
        }
        forall n | n in NameSet(rest) ensures n in NameSet(e) {
          var k :| 0 <= k < |rest| && rest[k].name == n;
          assert e[k + 1].name == n;
        }
      }
      forall k | 0 <= k < |rest| ensures rest[k].name != e[0].name {
        assert rest[k] == e[k + 1];
      }
    }
  }

  /** After set, name maps to the new value and every other key keeps its value. */
  lemma SetEntryGet(e: seq<City>, name: string, population: int, other: string)
    requires UniqueNames(e)
    ensures Get(SetEntry(e, name, population), other) ==
      if other == name then Some(population) else Get(e, other)
  {
    var i := Find(e, name);
    var r := SetEntry(e, name, population);
    var j := Find(e, other);
    assert forall k | 0 <= k < |e| :: r[k].name == e[k].name;
    if other == name {
      FindIs(r, other, i);
    } else if j < |e| {
      FindIs(r, other, j);
      assert r[j] == e[j];
    } else {
      FindIs(r, other, |r|);
    }
  }

  /** set keeps the keys unique. */
  lemma SetEntryUnique(e: seq<City>, name: string, population: int)
    requires UniqueNames(e)
    ensures UniqueNames(SetEntry(e, name, population))
  {
    var i := Find(e, name);
    var r := SetEntry(e, name, population);
    assert forall k | 0 <= k < |r| :: r[k].name == if k < |e| then e[k].name else name;
  }

  /** set keeps the key order: a known key stays where it was, a new key is appended. */
  lemma SetEntryNames(e: seq<City>, name: string, population: int)
    ensures Names(SetEntry(e, name, population)) == if Has(e, name) then Names(e) else Names(e) + [name]
  {
    var r := SetEntry(e, name, population);
    if Has(e, name) {
      assert forall k | 0 <= k < |r| :: r[k].name == e[k].name;
    } else {
      assert forall k | 0 <= k < |r| :: r[k].name == (Names(e) + [name])[k];
    }
  }

  /** set adds one entry exactly when the key is new. */
  lemma SetEntrySize(e: seq<City>, name: string, population: int)
    ensures |SetEntry(e, name, population)| == if Has(e, name) then |e| else |e| + 1
  {
  }

  /** Under unique keys, delete agrees with the reference: all entries named name go,
      the others stay in order. */
  lemma {:induction false} DeleteIsWithout(e: seq<City>, name: string)
    requires UniqueNames(e)
    ensures DeleteEntry(e, name) == Without(e, name)
    decreases |e|
  {
    if e != [] {
      var rest := e[1..];
      assert UniqueNames(rest) by {
        forall i, j | 0 <= i < j < |rest| ensures rest[i].name != rest[j].name {
          assert rest[i] == e[i + 1] && rest[j] == e[j + 1];
        }
      }
      if e[0].name == name {
        assert Find(e, name) == 0;
        NoneNamed(rest, name, e);
      } else {
        DeleteIsWithout(rest, name);
        var i := Find(rest, name);
        assert Find(e, name) == i + 1;
        if i < |rest| {
          assert e[..i + 1] == [e[0]] + rest[..i];
          assert e[i + 2..] == rest[i + 1..];
        }
      }
    }
  }

  /** A helper for DeleteIsWithout: when the first entry of e holds the only copy of name,
      the rest has no entry named name, so the reference keeps it whole. */
  lemma NoneNamed(rest: seq<City>, name: string, e: seq<City>)
    requires UniqueNames(e) && e != [] && e[0].name == name && rest == e[1..]
    ensures Without(rest, name) == rest
  {
    assert forall k | 0 <= k < |rest| :: rest[k].name != name by {
      forall k | 0 <= k < |rest| ensures rest[k].name != name {
        assert rest[k] == e[k + 1];
      }
    }
    WithoutAbsent(rest, name);
  }

  lemma {:induction false} WithoutAbsent(e: seq<City>, name: string)
    requires forall k | 0 <= k < |e| :: e[k].name != name
    ensures Without(e, name) == e
    decreases |e|
  {
    if e != [] {
      assert e[0].name != name;
      WithoutAbsent(e[1..], name);
    }
  }

  /** After delete, name is gone and every other key keeps its value. */
  lemma DeleteEntryGet(e: seq<City>, name: string, other: string)
    requires UniqueNames(e)
    ensures Get(DeleteEntry(e, name), other) == if other == name then None else Get(e, other)
  {
    var i := Find(e, name);
    var r := DeleteEntry(e, name);
    if i < |e| {
      assert forall k | 0 <= k < |r| :: r[k] == if k < i then e[k] else e[k + 1];
      var je := Find(e, other);
      if other == name {
        FindIs(r, other, |r|);
      } else if je < i {
        FindIs(r, other, je);
      } else if je < |e| {
        FindIs(r, other, je - 1);
      } else {
        FindIs(r, other, |r|);
      }
    }
  }

  /** delete keeps the keys unique. */
  lemma DeleteEntryUnique(e: seq<City>, name: string)
    requires UniqueNames(e)
    ensures UniqueNames(DeleteEntry(e, name))
  {
    var i := Find(e, name);
    var r := DeleteEntry(e, name);
    if i < |e| {
      assert forall k | 0 <= k < |r| :: r[k] == if k < i then e[k] else e[k + 1];
    }
  }

  /** delete removes one entry exactly when the key was there. */
  lemma DeleteEntrySize(e: seq<City>, name: string)
    ensures |DeleteEntry(e, name)| == if Has(e, name) then |e| - 1 else |e|
  {
  }

  // ---------------------------------------------------------------- the extremes

  /** The entry at i is the first whose count no entry exceeds, as the loop comparing
      with `>` finds it. */
  ghost predicate FirstMostAt(e: seq<City>, c: City, i: int) {
    && 0 <= i < |e| && e[i] == c
    && (forall k | 0 <= k < i :: e[k].population < c.population)
    && (forall k | i < k < |e| :: e[k].population <= c.population)
  }

  /** The entry at i is the first that no entry undercuts, as found with `<`. */
  ghost predicate FirstLeastAt(e: seq<City>, c: City, i: int) {
    && 0 <= i < |e| && e[i] == c
    && (forall k | 0 <= k < i :: e[k].population > c.population)
    && (forall k | i < k < |e| :: e[k].population >= c.population)
  }

  /** c is the entry the page reports as most populated (ties go to the earliest). */
  ghost predicate IsFirstMost(e: seq<City>, c: City) {
    exists i :: FirstMostAt(e, c, i)
  }

  /** c is the entry the page reports as least populated (ties go to the earliest). */
  ghost predicate IsFirstLeast(e: seq<City>, c: City) {
    exists i :: FirstLeastAt(e, c, i)
  }

  /** There is only one such entry, so the answer of the loop is determined. */
  lemma FirstMostUnique(e: seq<City>, a: City, b: City)
    requires IsFirstMost(e, a) && IsFirstMost(e, b)
    ensures a == b
  {
    var i :| FirstMostAt(e, a, i);
    var j :| FirstMostAt(e, b, j);
  }

  lemma FirstLeastUnique(e: seq<City>, a: City, b: City)
    requires IsFirstLeast(e, a) && IsFirstLeast(e, b)
    ensures a == b
  {
    var i :| FirstLeastAt(e, a, i);
    var j :| FirstLeastAt(e, b, j);
  }

  // ---------------------------------------------------------------- the page

  /** The three cities the Map starts with. */
  const Initial: seq<City> := [City("Madrid", 3223000), City("Cadiz", 794000), City("Sevilla", 688711)]

  /** Madrid is reported as most populated and Sevilla as least. */
  lemma InitialExtremes()
    ensures IsFirstMost(Initial, City("Madrid", 3223000))
    ensures IsFirstLeast(Initial, City("Sevilla", 688711))
  {
    assert FirstMostAt(Initial, City("Madrid", 3223000), 0);
    assert FirstLeastAt(Initial, City("Sevilla", 688711), 2);
  }

  /** What a button reports, without its wording. */
  datatype Outcome =
    | InvalidName
    | InvalidPopulation
    | NameTaken(name: string)
    | Saved(name: string, population: int)
    | Removed(name: string)
    | Cancelled

  /** A name the page accepts: not blank once trimmed. */
  predicate NonBlank(name: string) {
    JsTrim(name) != ""
  }

  class CityMap {
    /** The Map `ciudades`, in insertion order. */
    var entries: seq<City>

    /** Keys are unique, every key is a non-blank name and no count is negative. */
    predicate Valid()
      reads this
    {
      && UniqueNames(entries)
      && (forall k | 0 <= k < |entries| :: NonBlank(entries[k].name))
      && (forall k | 0 <= k < |entries| :: entries[k].population >= 0)
    }

    /** `new Map([...])` with the three sample cities. */
    constructor()
      ensures Valid() && entries == Initial
    {
      entries := Initial;
      InitialUnique();
      InitialNonBlank();
    }

    /** The add button: the name is trimmed, a blank name or a count that is NaN or
        negative is refused, otherwise `set` stores or replaces the entry. The count is
        what parseInt read from its box, None for NaN. */
    method Add(rawName: string, population: Option<int>) returns (o: Outcome)
      requires Valid()
      modifies this
      ensures Valid()
      ensures !NonBlank(rawName) ==> o == InvalidName && entries == old(entries)
      ensures NonBlank(rawName) && (population.None? || population.value < 0) ==>
        o == InvalidPopulation && entries == old(entries)
      ensures NonBlank(rawName) && population.Some? && population.value >= 0 ==>
        o == Saved(JsTrim(rawName), population.value)
        && entries == SetEntry(old(entries), JsTrim(rawName), population.value)
    {
      var nombre := JsTrim(rawName);
      if nombre == "" {
        return InvalidName;
      }
      if population.None? || population.value < 0 {
        return InvalidPopulation;
      }
      TrimIdempotent(rawName, IsJsSpace);
      Store(nombre, population.value);
      o := Saved(nombre, population.value);
    }

    /** `ciudades.set(name, population)` for a checked name and count. */
    method Store(name: string, population: int)
      requires Valid() && NonBlank(name) && population >= 0
      modifies this
      ensures Valid() && entries == SetEntry(old(entries), name, population)
    {
      SetEntryUnique(entries, name, population);
      entries := SetEntry(entries, name, population);
    }

    /** The delete button of the entry for nombre, after the confirm dialog. */
    method Delete(nombre: string, confirmed: bool) returns (o: Outcome)
      requires Valid()
      modifies this
      ensures Valid()
      ensures !confirmed ==> o == Cancelled && entries == old(entries)
      ensures confirmed ==> o == Removed(nombre) && entries == DeleteEntry(old(entries), nombre)
    {
      if !confirmed {
        return Cancelled;
      }
      DeleteEntryUnique(entries, nombre);
      entries := DeleteEntry(entries, nombre);
      o := Removed(nombre);
    }

    /** The edit button of the entry for nombre: the new name comes from a prompt (None
        when cancelled) and is stored untrimmed; the count is parseInt of the second
        prompt. A blank name, a bad count, or a new name already used by another entry is
        refused; otherwise the old entry is deleted and the new one set, so it moves to the end. */
    method Edit(nombre: string, newName: Option<string>, population: Option<int>) returns (o: Outcome)
      requires Valid()
      modifies this
      ensures Valid()
      ensures newName.None? || !NonBlank(newName.value) ==> o == InvalidName && entries == old(entries)
      ensures newName.Some? && NonBlank(newName.value) && (population.None? || population.value < 0) ==>
        o == InvalidPopulation && entries == old(entries)
      ensures newName.Some? && NonBlank(newName.value) && population.Some? && population.value >= 0 ==>
        if newName.value != nombre && Has(old(entries), newName.value) then
          o == NameTaken(newName.value) && entries == old(entries)
        else
          o == Saved(newName.value, population.value)
          && entries == DeleteEntry(old(entries), nombre) + [City(newName.value, population.value)]
      ensures o.Saved? && Has(old(entries), nombre) ==> |entries| == |old(entries)|
    {
      if newName.None? || JsTrim(newName.value) == "" {
        return InvalidName;
      }
      if population.None? || population.value < 0 {
        return InvalidPopulation;
      }
      var nuevo := newName.value;
      if nuevo != nombre && Has(entries, nuevo) {
        return NameTaken(nuevo);
      }
      DeleteEntryUnique(entries, nombre);
      DeleteEntryGet(entries, nombre, nuevo);
      DeleteEntrySize(entries, nombre);
      entries := DeleteEntry(entries, nombre);
      Store(nuevo, population.value);
      o := Saved(nuevo, population.value);
    }

    /** The count button: `ciudades.size`, the number of distinct keys. */
    method Count() returns (n: nat)
      requires Valid()
      ensures n == |NameSet(entries)| && n == |entries|
    {
      SizeIsKeyCount(entries);
      n := |entries|;
    }

    /** The "most inhabitants" button: None for an empty Map, otherwise the entry the
        loop keeps, comparing each count with `>` against the best so far. */
    method MostPopulated() returns (most: Option<City>)
      ensures most.None? <==> entries == []
      ensures most.Some? ==> IsFirstMost(entries, most.value)
    {
      if |entries| == 0 {
        return None;
      }
      most := None;
      ghost var at := 0;
      var i := 0;
      while i < |entries|
        invariant 0 <= i <= |entries|
        invariant most.None? <==> i == 0
        invariant most.Some? ==> 0 <= at < i && entries[at] == most.value
        invariant most.Some? ==> forall k | 0 <= k < at :: entries[k].population < most.value.population
        invariant most.Some? ==> forall k | at < k < i :: entries[k].population <= most.value.population
      {
        if most.None? || entries[i].population > most.value.population {
          most := Some(entries[i]);
          at := i;
        }
        i := i + 1;
      }
      assert FirstMostAt(entries, most.value, at);
    }

    /** The "fewest inhabitants" button, with `<`. */
    method LeastPopulated() returns (least: Option<City>)
      ensures least.None? <==> entries == []
      ensures least.Some? ==> IsFirstLeast(entries, least.value)
    {
      if |entries| == 0 {
        return None;
      }
      least := None;
      ghost var at := 0;
      var i := 0;
      while i < |entries|
        invariant 0 <= i <= |entries|
        invariant least.None? <==> i == 0
        invariant least.Some? ==> 0 <= at < i && entries[at] == least.value
        invariant least.Some? ==> forall k | 0 <= k < at :: entries[k].population > least.value.population
        invariant least.Some? ==> forall k | at < k < i :: entries[k].population >= least.value.population
      {
        if least.None? || entries[i].population < least.value.population {
          least := Some(entries[i]);
          at := i;
        }
        i := i + 1;
      }
      assert FirstLeastAt(entries, least.value, at);
    }
  }

  /** The sample cities have distinct names... */
  lemma InitialUnique()
    ensures UniqueNames(Initial)
  {
    assert |Initial[0].name| == 6 && |Initial[1].name| == 5 && |Initial[2].name| == 7;
  }

  /** ...none of them blank. */
  lemma InitialNonBlank()
    ensures forall k | 0 <= k < |Initial| :: NonBlank(Initial[k].name)
  {
    NonBlankWord("Madrid");
    NonBlankWord("Cadiz");
    NonBlankWord("Sevilla");
  }

  /** A name starting with a letter is not blank. */
  lemma NonBlankWord(s: string)
    requires s != [] && 'A' <= s[0] <= 'Z'
    ensures NonBlank(s)
  {
    TrimEmptyIff(s, IsJsSpace);
  }
}
