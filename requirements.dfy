/** Requirement normalisation in `Wheel._install_as_egg` (setuptools/wheel.py): the base
    requirement strings, with their markers already stripped, are sorted into
    `install_requires`; for every extra, the strings `dist.requires((extra,))` yields are
    filtered against `install_requires` and sorted. Duplicates are kept. Reading the
    requirements from the distribution's metadata and stripping markers is not part of this
    model: the strings are inputs. */
module Requirements {
  import opened Common

  /** The `setup()` arguments built from the metadata. */
  datatype Normalized = Normalized(installRequires: seq<string>, extrasRequire: map<string, seq<string>>)

  /** The strings of `reqs` that are not in `exclude`, in their order, duplicates kept. */
  function Without(reqs: seq<string>, exclude: seq<string>): (r: seq<string>)
    ensures forall x :: multiset(r)[x] == if x in exclude then 0 else multiset(reqs)[x]
    decreases |reqs|
  {
    if reqs == [] then []
    else
      assert reqs == [reqs[0]] + reqs[1..];
      var rest := Without(reqs[1..], exclude);
      if reqs[0] in exclude then rest else [reqs[0]] + rest
  }

  /** `install_requires` and `extras_require` for the base strings and, per extra, the strings
      required with that extra. */
  function Normalize(base: seq<string>, requiresFor: map<string, seq<string>>): (n: Normalized)
    ensures Sorted(n.installRequires) && multiset(n.installRequires) == multiset(base)
    ensures n.extrasRequire.Keys == requiresFor.Keys
    ensures forall e :: e in n.extrasRequire ==> Sorted(n.extrasRequire[e])
    ensures forall e, x :: e in n.extrasRequire ==>
      multiset(n.extrasRequire[e])[x] == if x in base then 0 else multiset(requiresFor[e])[x]
  {
    var installRequires := Sort(base);
    assert forall x :: x in installRequires <==> x in base by {
      forall x ensures x in installRequires <==> x in base {
        assert x in installRequires <==> x in multiset(installRequires);
        assert x in base <==> x in multiset(base);
      }
    }
    Normalized(installRequires, map e | e in requiresFor :: Sort(Without(requiresFor[e], installRequires)))
  }

  /** An extra lists a string exactly when it is required with the extra and is not a base
      requirement. */
  lemma ExtraMembers(base: seq<string>, requiresFor: map<string, seq<string>>, e: string, x: string)
    requires e in requiresFor
    ensures x in Normalize(base, requiresFor).extrasRequire[e] <==> x in requiresFor[e] && x !in base
  {
    var r := Normalize(base, requiresFor).extrasRequire[e];
    assert x in r <==> x in multiset(r);
    assert x in requiresFor[e] <==> x in multiset(requiresFor[e]);
  }

  /** The lists are determined: any sorted list with the same strings, counted with
      multiplicity, is the one `Normalize` produces. */
  lemma NormalizeUnique(base: seq<string>, requiresFor: map<string, seq<string>>, e: string, l: seq<string>)
    requires e in requiresFor && Sorted(l)
    requires forall x :: multiset(l)[x] == if x in base then 0 else multiset(requiresFor[e])[x]
    ensures Normalize(base, requiresFor).extrasRequire[e] == l
  {
    var r := Normalize(base, requiresFor).extrasRequire[e];
    assert multiset(r) == multiset(l);
    SortedUnique(r, l);
  }

  /** Base `["a>=1"]` and extra `test` requiring `["a>=1", "b"]`: the extra lists only `b`. */
  lemma DedupExample()
    ensures Normalize(["a>=1"], map["test" := ["a>=1", "b"]]).extrasRequire["test"] == ["b"]
  {
    var base := ["a>=1"];
    var l := ["b"];
    assert Sorted(l);
    assert "b" != "a>=1";
    forall x ensures multiset(l)[x] == if x in base then 0 else multiset(["a>=1", "b"])[x] {
      assert multiset(["a>=1", "b"]) == multiset{"a>=1", "b"};
    }
    NormalizeUnique(base, map["test" := ["a>=1", "b"]], "test", l);
  }
}
