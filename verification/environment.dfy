/**
 * The variable table of parser.c (get_variable_value, get_variable_array,
 * set_variable): a flat sequence of named variables searched front to back,
 * grown by appending and updated in place.
 */
module Environment {
  import opened Wrappers
  import opened Faults

  /** ArrayItem: a value, with a key that is absent for indexed entries. */
  datatype Item = Item(key: Option<string>, value: string)

  /** Array: its items in the order they were written in the literal. */
  type ArrayValue = seq<Item>

  /** Variable: a scalar text and an array, each of which may be absent. */
  datatype Var = Var(scalar: Option<string>, elements: Option<ArrayValue>)

  /**
   * One table entry.  `generation` counts how many times set_variable has
   * replaced the entry, each time releasing the scalar and array it held, so
   * a reader holding on to the old array can tell that it has been released.
   */
  datatype Binding = Binding(name: string, val: Var, generation: nat)

  type Env = seq<Binding>

  predicate Bound(env: Env, name: string) {
    exists i :: 0 <= i < |env| && env[i].name == name
  }

  predicate UniqueNames(env: Env) {
    forall i, j :: 0 <= i < j < |env| ==> env[i].name != env[j].name
  }

  /** The index of the first entry named `name`, or |env| when there is none. */
  function Find(env: Env, name: string): (i: nat)
    ensures i <= |env|
    ensures i < |env| ==> env[i].name == name
    ensures forall j :: 0 <= j < i ==> env[j].name != name
    ensures i == |env| <==> !Bound(env, name)
  {
    if |env| == 0 then 0
    else if env[0].name == name then 0
    else
      var k := Find(env[1..], name);
      assert forall j :: 1 <= j < |env| ==> env[j] == env[1..][j - 1];
      1 + k
  }

  /** get_variable_value: the scalar of the first entry named `name`; none if absent. */
  function GetValue(env: Env, name: string): Option<string> {
    var i := Find(env, name);
    if i < |env| then env[i].val.scalar else None
  }

  /** get_variable_array: the array of the first entry named `name`; none if absent. */
  function GetArray(env: Env, name: string): Option<ArrayValue> {
    var i := Find(env, name);
    if i < |env| then env[i].val.elements else None
  }

  /** How many times the entry named `name` has been replaced; 0 if absent. */
  function Generation(env: Env, name: string): nat {
    var i := Find(env, name);
    if i < |env| then env[i].generation else 0
  }

  /**
   * set_variable: replace the first entry named `name` in place, or append a
   * new entry when there is none.  The table keeps its length for a known
   * name and grows by one for a new one, and its names stay unique.  What
   * lookups see afterwards is stated by SetLookup, SetOthers and SetShape.
   */
  function Set(env: Env, name: string, v: Var): (r: Env)
    ensures Bound(r, name)
    ensures Bound(env, name) ==> |r| == |env|
    ensures !Bound(env, name) ==> |r| == |env| + 1
    ensures UniqueNames(env) ==> UniqueNames(r)
  {
    var i := Find(env, name);
    var b := if i < |env| then Binding(name, v, env[i].generation + 1) else Binding(name, v, 0);
    var r := if i < |env| then env[i := b] else env + [b];
    assert r[i].name == name;
    r
  }

  /** After a set, lookups of that name see the new contents, and the entry's generation moves on. */
  lemma SetLookup(env: Env, name: string, v: Var)
    ensures GetValue(Set(env, name, v), name) == v.scalar
    ensures GetArray(Set(env, name, v), name) == v.elements
    ensures Generation(Set(env, name, v), name) == if Bound(env, name) then Generation(env, name) + 1 else 0
  {
    var r := Set(env, name, v);
    FindIs(r, name, Find(env, name));
  }

  /** A set leaves every other name's contents and generation as they were. */
  lemma SetOthers(env: Env, name: string, v: Var, m: string)
    requires m != name
    ensures GetValue(Set(env, name, v), m) == GetValue(env, m)
    ensures GetArray(Set(env, name, v), m) == GetArray(env, m)
    ensures Generation(Set(env, name, v), m) == Generation(env, m)
  {
    var r := Set(env, name, v);
    var k := Find(env, m);
    if k < |env| {
      FindIs(r, m, k);
    } else {
      FindIs(r, m, |r|);
    }
  }

  /** Every name other than n has the same scalar and array in b as in a. */
  ghost predicate OthersKept(a: Env, b: Env, n: string) {
    forall m :: m != n ==> GetValue(b, m) == GetValue(a, m) && GetArray(b, m) == GetArray(a, m)
  }

  /** Setting one name leaves every other name's scalar and array as they were. */
  lemma SetKeepsOthers(env: Env, n: string, v: Var)
    ensures forall m :: m != n ==> GetValue(Set(env, n, v), m) == GetValue(env, m) && GetArray(Set(env, n, v), m) == GetArray(env, m)
    ensures OthersKept(env, Set(env, n, v), n)
  {
    forall m | m != n
      ensures GetValue(Set(env, n, v), m) == GetValue(env, m)
      ensures GetArray(Set(env, n, v), m) == GetArray(env, m)
    {
      SetOthers(env, n, v, m);
    }
    assert OthersKept(env, Set(env, n, v), n);
  }

  /**
   * The shape of the table after a set: a known name is replaced in place
   * with every other entry untouched; a new name is appended with
   * generation 0.
   */
  lemma SetShape(env: Env, name: string, v: Var)
    ensures Bound(env, name) ==> forall j :: 0 <= j < |env| && env[j].name != name ==> Set(env, name, v)[j] == env[j]
    ensures !Bound(env, name) ==> Set(env, name, v) == env + [Binding(name, v, 0)]
  {
  }

  /** Find is characterised by its contract: the first index holding the name, else the length. */
  lemma FindIs(env: Env, name: string, i: nat)
    requires i <= |env|
    requires i < |env| ==> env[i].name == name
    requires forall j :: 0 <= j < i ==> env[j].name != name
    ensures Find(env, name) == i
  {
  }

  /** Lookups of a name that was never set find nothing. */
  lemma GetAbsent(env: Env, name: string)
    requires !Bound(env, name)
    ensures GetValue(env, name) == None && GetArray(env, name) == None
  {
  }

  /**
   * A lookup through a name that may be NULL: strcmp with a NULL name is
   * undefined as soon as there is an entry to compare it with, and an empty
   * table answers NULL without comparing.
   */
  function LookupValue(env: Env, name: Option<string>): (r: Outcome<Option<string>>)
    ensures name.Some? ==> r == Ok(GetValue(env, name.value))
    ensures name.None? ==> (r.Ok? <==> |env| == 0) && (r.Ok? ==> r.value.None?)
  {
    match name
    case Some(n) => Ok(GetValue(env, n))
    case None => if |env| == 0 then Ok(None) else Fail(NullName)
  }

  /** The same for get_variable_array. */
  function LookupArray(env: Env, name: Option<string>): (r: Outcome<Option<ArrayValue>>)
    ensures name.Some? ==> r == Ok(GetArray(env, name.value))
    ensures name.None? ==> (r.Ok? <==> |env| == 0) && (r.Ok? ==> r.value.None?)
  {
    match name
    case Some(n) => Ok(GetArray(env, n))
    case None => if |env| == 0 then Ok(None) else Fail(NullName)
  }

  /** set_variable through a name that may be NULL: strcmp or strdup of NULL is undefined either way. */
  function SetNamed(env: Env, name: Option<string>, v: Var): (r: Outcome<Env>)
    ensures r.Ok? <==> name.Some?
    ensures r.Ok? ==> r.value == Set(env, name.value, v)
  {
    match name
    case Some(n) => Ok(Set(env, n, v))
    case None => Fail(NullName)
  }
}
