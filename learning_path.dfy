/**
 * The learning-path page's `skills`: the skills of the catalogue whose names
 * the path lists, in the path's order. The catalogue is a parameter.
 */
module LearningPathView {
  import opened Models

  /** `names.indexOf(name)`: the first position of `name`, -1 when it is absent. */
  function IndexOf(names: seq<string>, name: string): (r: int)
    ensures -1 <= r < |names|
    ensures r == -1 <==> name !in names
    ensures r >= 0 ==> names[r] == name && forall j :: 0 <= j < r ==> names[j] != name
  {
    if names == [] then -1
    else if names[0] == name then 0
    else
      var i := IndexOf(names[1..], name);
      if i == -1 then -1 else i + 1
  }

  /** `data.filter(skill => names.includes(skill.name))`. */
  function Filter(data: seq<Skill>, names: seq<string>): (r: seq<Skill>)
    ensures |r| <= |data|
    ensures forall s :: s in r <==> s in data && s.name in names
  {
    if data == [] then []
    else if data[0].name in names then [data[0]] + Filter(data[1..], names)
    else Filter(data[1..], names)
  }

  /** The sort key: the skill's position in the path. */
  function Key(names: seq<string>, s: Skill): int {
    IndexOf(names, s.name)
  }

  /** Places `x` before the first element whose key is not smaller than its own. */
  function Insert(names: seq<string>, x: Skill, t: seq<Skill>): (r: seq<Skill>)
    ensures multiset(r) == multiset(t) + multiset{x}
  {
    if t == [] || Key(names, x) <= Key(names, t[0]) then [x] + t
    else
      assert t == [t[0]] + t[1..];
      [t[0]] + Insert(names, x, t[1..])
  }

  /** `sort((a, b) => indexOf(a.name) - indexOf(b.name))`. The comparator is consistent and
      the sort is stable, so its result is the stable sort by key, here by insertion. */
  function Sort(names: seq<string>, xs: seq<Skill>): (r: seq<Skill>)
    ensures multiset(r) == multiset(xs)
  {
    if xs == [] then []
    else
      assert xs == [xs[0]] + xs[1..];
      Insert(names, xs[0], Sort(names, xs[1..]))
  }

  /** The page's `skills` for `path` over the catalogue `data`. */
  function Skills(data: seq<Skill>, path: LearningPath): seq<Skill> {
    Sort(path.skillNames, Filter(data, path.skillNames))
  }

  predicate SortedByKey(names: seq<string>, xs: seq<Skill>) {
    forall i, j :: 0 <= i < j < |xs| ==> Key(names, xs[i]) <= Key(names, xs[j])
  }

  /** The elements of `xs` with key `k`, in their order in `xs`. */
  function WithKey(names: seq<string>, xs: seq<Skill>, k: int): seq<Skill> {
    if xs == [] then []
    else (if Key(names, xs[0]) == k then [xs[0]] else []) + WithKey(names, xs[1..], k)
  }

  /** A sorted list stays sorted with an element in front whose key is not larger. */
  lemma SortedCons(names: seq<string>, y: Skill, t: seq<Skill>)
    requires SortedByKey(names, t)
    requires forall z :: z in t ==> Key(names, y) <= Key(names, z)
    ensures SortedByKey(names, [y] + t)
  {
    var r := [y] + t;
    forall i, j | 0 <= i < j < |r| ensures Key(names, r[i]) <= Key(names, r[j]) {
      assert r[j] == t[j - 1] && t[j - 1] in t;
      if i > 0 {
        assert r[i] == t[i - 1];
      }
    }
  }

  lemma SortedTail(names: seq<string>, t: seq<Skill>)
    requires SortedByKey(names, t) && t != []
    ensures SortedByKey(names, t[1..])
    ensures forall z :: z in t[1..] ==> Key(names, t[0]) <= Key(names, z)
  {
    forall z | z in t[1..] ensures Key(names, t[0]) <= Key(names, z) {
      var k :| 0 <= k < |t[1..]| && t[1..][k] == z;
      assert t[k + 1] == z;
    }
  }

  lemma {:induction false} InsertSorted(names: seq<string>, x: Skill, t: seq<Skill>)
    requires SortedByKey(names, t)
    ensures SortedByKey(names, Insert(names, x, t))
    decreases |t|
  {
    if t == [] {
    } else if Key(names, x) <= Key(names, t[0]) {
      SortedTail(names, t);
      SortedCons(names, x, t);
    } else {
      SortedTail(names, t);
      var rest := Insert(names, x, t[1..]);
      InsertSorted(names, x, t[1..]);
      forall y | y in rest ensures Key(names, t[0]) <= Key(names, y) {
        assert y in multiset(rest);
      }
      SortedCons(names, t[0], rest);
    }
  }

  lemma {:induction false} SortSorted(names: seq<string>, xs: seq<Skill>)
    ensures SortedByKey(names, Sort(names, xs))
    decreases |xs|
  {
    if xs != [] {
      SortSorted(names, xs[1..]);
      InsertSorted(names, xs[0], Sort(names, xs[1..]));
    }
  }

  lemma WithKeyCons(names: seq<string>, x: Skill, t: seq<Skill>, k: int)
    ensures WithKey(names, [x] + t, k) == (if Key(names, x) == k then [x] else []) + WithKey(names, t, k)
  {
    assert ([x] + t)[0] == x && ([x] + t)[1..] == t;
  }

  /** Inserting `x` adds it in front of the elements that share its key. */
  lemma {:induction false} InsertWithKey(names: seq<string>, x: Skill, t: seq<Skill>, k: int)
    ensures WithKey(names, Insert(names, x, t), k) == (if Key(names, x) == k then [x] else []) + WithKey(names, t, k)
    decreases |t|
  {
    if t == [] || Key(names, x) <= Key(names, t[0]) {
      WithKeyCons(names, x, t, k);
    } else {
      InsertWithKey(names, x, t[1..], k);
      WithKeyCons(names, t[0], Insert(names, x, t[1..]), k);
      assert [t[0]] + t[1..] == t;
      WithKeyCons(names, t[0], t[1..], k);
    }
  }

  /** The sort is stable: the elements of each key keep their relative order. */
  lemma {:induction false} SortStable(names: seq<string>, xs: seq<Skill>, k: int)
    ensures WithKey(names, Sort(names, xs), k) == WithKey(names, xs, k)
    decreases |xs|
  {
    if xs != [] {
      SortStable(names, xs[1..], k);
      InsertWithKey(names, xs[0], Sort(names, xs[1..]), k);
    }
  }

  /** A skill is shown exactly when it is in the catalogue and the path names it; names
      the catalogue lacks are skipped. */
  lemma SkillsMembers(data: seq<Skill>, path: LearningPath, s: Skill)
    ensures s in Skills(data, path) <==> s in data && s.name in path.skillNames
  {
    var f := Filter(data, path.skillNames);
    assert s in Skills(data, path) <==> s in multiset(f);
  }

  /** The shown skills are in the order the path lists their names. */
  lemma SkillsOrdered(data: seq<Skill>, path: LearningPath)
    ensures forall i, j :: 0 <= i < j < |Skills(data, path)| ==>
      IndexOf(path.skillNames, Skills(data, path)[i].name) <= IndexOf(path.skillNames, Skills(data, path)[j].name)
  {
    SortSorted(path.skillNames, Filter(data, path.skillNames));
  }

  /** Sorting adds, drops and duplicates nothing, so at most the catalogue is shown. */
  lemma SkillsPermutation(data: seq<Skill>, path: LearningPath)
    ensures multiset(Skills(data, path)) == multiset(Filter(data, path.skillNames))
    ensures |Skills(data, path)| <= |data|
  {
    var f := Filter(data, path.skillNames);
    assert |multiset(Skills(data, path))| == |multiset(f)|;
  }

  /** Skills the path places at the same position keep their catalogue order. */
  lemma SkillsStable(data: seq<Skill>, path: LearningPath, k: int)
    ensures WithKey(path.skillNames, Skills(data, path), k) == WithKey(path.skillNames, Filter(data, path.skillNames), k)
  {
    SortStable(path.skillNames, Filter(data, path.skillNames), k);
  }
}
