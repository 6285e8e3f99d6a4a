/**
 * The built-in types (run/Builtin.kt): unit, whose only case is `Unit`, and lists, whose
 * cases are `::` (head and tail) and `Empty`. These case objects exist before any program
 * runs, so they take the first tags; the root namespace of every interpreter starts with
 * the two unit types in it.
 */
module Builtin {
  import opened Wrappers
  import opened RuntimeValues

  const Unit: TypeCase := TypeCase(0, "Unit", 0)
  const UnitT: Type := ParentType("UnitT", [Unit])

  const ListEmpty: TypeCase := TypeCase(1, "Empty", 0)
  const ListCons: TypeCase := TypeCase(2, "::", 2)
  const List: Type := ParentType("List", [ListCons, ListEmpty])

  /** The first tag the interpreter may give a case it makes. */
  const FirstFreeTag: nat := 3

  /** makeRootNamespace: a new, public namespace holding only the types `UnitT` and `Unit`. */
  function MakeRootNamespace(): (r: Namespace)
    ensures r.bindings == map[] && r.subnames == map[] && r.public
    ensures r.types.Keys == {"UnitT", "Unit"}
    ensures r.types["UnitT"] == UnitT && r.types["Unit"] == CaseType(Unit)
  {
    var ns := EmptyNamespace(true);
    ns.(types := ns.types["UnitT" := UnitT]["Unit" := CaseType(Unit)])
  }

  /**
   * In a fresh root namespace the two unit types are found by their one-segment names;
   * no other type and no name at all can be found.
   */
  lemma {:induction false} RootLookups(qname: seq<string>)
    ensures FindType(MakeRootNamespace(), ["Unit"]) == Success(CaseType(Unit))
    ensures FindType(MakeRootNamespace(), ["UnitT"]) == Success(UnitT)
    ensures FindType(MakeRootNamespace(), qname).Success? ==> qname == ["Unit"] || qname == ["UnitT"]
    ensures FindName(MakeRootNamespace(), qname).Failure?
  {
    var root := MakeRootNamespace();
    assert FindNamespace(root, ["Unit"][..0]) == Success(root);
    assert FindNamespace(root, ["UnitT"][..0]) == Success(root);
    if |qname| > 1 {
      assert qname[..|qname| - 1][0] !in root.subnames;
    } else if |qname| == 1 {
      assert FindNamespace(root, qname[..0]) == Success(root);
      assert qname == [qname[0]];
    }
  }
}
