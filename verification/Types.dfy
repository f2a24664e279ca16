/** hamilton/htypes.py: when the type of a node fits a parameter. */
module Types {

  /**
   * A type annotation: a bare class, a generic with its arguments (`origin` is the class behind it), a
   * union, a type variable or Any.
   */
  datatype Type =
    | Any
    | TypeVar(name: string)
    | Class(name: string)
    | Generic(origin: string, args: seq<Type>)
    | Union(members: set<Type>)

  const PARALLELIZABLE := "Parallelizable"
  const COLLECT := "Collect"
  const BASE_ARGS: seq<Type> := [TypeVar("T")]

  /** `issubclass` on class names. */
  datatype Hierarchy = Hierarchy(sub: (string, string) -> bool) {
    ghost predicate Valid() {
      && (forall a :: sub(a, a))
      && (forall a, b, c :: sub(a, b) && sub(b, c) ==> sub(a, c))
    }
  }

  /** `typing_inspect.get_origin` of a generic, otherwise the type itself. */
  function OriginOf(t: Type): Type {
    if t.Generic? then Class(t.origin) else t
  }

  function ArgsOf(t: Type): seq<Type> {
    if t.Generic? then t.args else []
  }

  /** `_safe_subclass`: plain classes only. */
  predicate SafeSubclass(h: Hierarchy, candidate: Type, base: Type) {
    candidate.Class? && base.Class? && h.sub(candidate.name, base.name)
  }

  /** Arguments agree, or one side does not say. */
  predicate ArgsAgree(requested: seq<Type>, param: seq<Type>) {
    requested == [] || param == [] || requested == BASE_ARGS || param == BASE_ARGS || requested == param
  }

  /** `custom_subclass_check`. */
  predicate CustomSubclassCheck(h: Hierarchy, requested: Type, param: Type)
    decreases requested, param
  {
    if param.Any? then true
    else if SafeSubclass(h, requested, param) then true
    else if param.Union? && exists arg :: arg in param.members && CustomSubclassCheck(h, requested, arg) then true
    else
      var hasGeneric := requested.Generic? || param.Generic?;
      if requested.Generic? && requested.origin == PARALLELIZABLE && |requested.args| == 1 then
        CustomSubclassCheck(h, requested.args[0], param)
      else if param.Generic? && param.origin == COLLECT && |param.args| == 1 then
        CustomSubclassCheck(h, requested, param.args[0])
      else if OriginOf(requested) == OriginOf(param) || SafeSubclass(h, OriginOf(requested), OriginOf(param)) then
        hasGeneric ==> ArgsAgree(ArgsOf(requested), ArgsOf(param))
      else false
  }

  /** `types_match`: a node of type `required` may feed a parameter of type `param`. */
  predicate TypesMatch(h: Hierarchy, param: Type, required: Type) {
    if required.Any? then true
    else if required.TypeVar? || param.TypeVar? then required == param
    else required == param || CustomSubclassCheck(h, required, param)
  }

  // ---------------------------------------------------------------- Any, type variables, items of a stream

  function Parallelizable(item: Type): Type {
    Generic(PARALLELIZABLE, [item])
  }

  function Collect(item: Type): Type {
    Generic(COLLECT, [item])
  }

  /** A node of type Any feeds every parameter; a parameter of type Any takes every node but a type variable. */
  lemma AnyMatches(h: Hierarchy, t: Type)
    ensures TypesMatch(h, t, Any)
    ensures TypesMatch(h, Any, t) <==> !t.TypeVar?
  {}

  /** A type variable matches itself alone, but for a node of type Any. */
  lemma TypeVariableMatches(h: Hierarchy, name: string, t: Type)
    ensures TypesMatch(h, t, TypeVar(name)) <==> t == TypeVar(name)
    ensures TypesMatch(h, TypeVar(name), t) <==> t == TypeVar(name) || t.Any?
  {}

  /** A stream is checked against a parameter as its items are, whatever the parameter. */
  lemma {:induction false} StreamChecksAsItems(h: Hierarchy, t: Type, p: Type)
    ensures CustomSubclassCheck(h, Parallelizable(t), p) <==> CustomSubclassCheck(h, t, p)
    decreases p
  {
    if p.Union? {
      forall arg | arg in p.members
        ensures CustomSubclassCheck(h, Parallelizable(t), arg) <==> CustomSubclassCheck(h, t, arg)
      {
        StreamChecksAsItems(h, t, arg);
      }
    }
    assert Parallelizable(t).args == [t];
  }

  /** And what collects a stream is checked against as its items are, whatever the node. */
  lemma {:induction false} CollectorChecksAsItems(h: Hierarchy, t: Type, p: Type)
    ensures CustomSubclassCheck(h, t, Collect(p)) <==> CustomSubclassCheck(h, t, p)
    decreases t
  {
    assert Collect(p).args == [p];
    if t.Generic? && t.origin == PARALLELIZABLE && |t.args| == 1 {
      CollectorChecksAsItems(h, t.args[0], p);
      StreamChecksAsItems(h, t.args[0], p);
      assert t == Parallelizable(t.args[0]);
    }
  }

  /** So a stream feeds a parameter for its items, and a collector takes a stream of what its items take. */
  lemma StreamMatches(h: Hierarchy, t: Type, p: Type)
    requires !p.TypeVar?
    ensures TypesMatch(h, p, Parallelizable(t)) <==> p == Parallelizable(t) || CustomSubclassCheck(h, t, p)
    ensures TypesMatch(h, Collect(p), Parallelizable(t)) <==> CustomSubclassCheck(h, t, p)
  {
    StreamChecksAsItems(h, t, p);
    CollectorChecksAsItems(h, Parallelizable(t), p);
    assert Collect(p) != Parallelizable(t);
  }

  /**
   * Classes and generics match by the classes, generics also by their arguments, where both sides give any: a class, a
   * generic without arguments, or one with the placeholder, matches every generic of its class in both directions.
   */
  lemma GenericMatches(h: Hierarchy, a: string, xs: seq<Type>, b: string, ys: seq<Type>)
    requires a != PARALLELIZABLE && b != COLLECT
    ensures TypesMatch(h, Class(b), Class(a)) <==> a == b || h.sub(a, b)
    ensures TypesMatch(h, Class(b), Generic(a, xs)) <==> a == b || h.sub(a, b)
    ensures TypesMatch(h, Generic(b, ys), Class(a)) <==> a == b || h.sub(a, b)
    ensures TypesMatch(h, Generic(b, ys), Generic(a, xs)) <==>
            && (a == b || h.sub(a, b))
            && (xs == ys || xs == [] || ys == [] || xs == [TypeVar("T")] || ys == [TypeVar("T")])
  {}

  /** A union takes what one of its members takes, and itself. */
  lemma UnionTakes(h: Hierarchy, members: set<Type>, t: Type)
    requires !t.TypeVar? && (t.Generic? ==> t.origin != PARALLELIZABLE)
    ensures TypesMatch(h, Union(members), t) <==>
            t.Any? || t == Union(members) || exists m :: m in members && CustomSubclassCheck(h, t, m)
  {}

  // ---------------------------------------------------------------- where matching is transitive

  /** Plain classes, flat unions of them, and generics with all arguments given. */
  predicate Simple(t: Type) {
    match t
    case Class(_) => true
    case Union(members) => forall m :: m in members ==> m.Class?
    case Generic(origin, args) =>
      args != [] && args != BASE_ARGS && origin != PARALLELIZABLE && origin != COLLECT
    case _ => false
  }

  /** No plain class among the types is a subclass of the class behind a generic among them. */
  ghost predicate NoClassBelowGeneric(h: Hierarchy, types: set<Type>) {
    forall c, g :: c in types && g in types && g.Generic? ==>
      match c
      case Class(name) => !h.sub(name, g.origin)
      case Union(members) => forall m :: m in members && m.Class? ==> !h.sub(m.name, g.origin)
      case _ => true
  }

  ghost predicate WellBehaved(h: Hierarchy, types: set<Type>) {
    h.Valid() && (forall t :: t in types ==> Simple(t)) && NoClassBelowGeneric(h, types)
  }

  /** What matching comes down to on simple types. */
  lemma SimpleMatch(h: Hierarchy, p: Type, t: Type)
    requires h.Valid() && Simple(p) && Simple(t)
    ensures TypesMatch(h, p, t) <==>
            || p == t
            || (t.Class? && p.Class? && h.sub(t.name, p.name))
            || (p.Union? && !t.Union? && exists m :: m in p.members && m.Class? && ClassMatch(h, m.name, t))
            || (t.Generic? && p.Class? && h.sub(t.origin, p.name))
            || (t.Class? && p.Generic? && h.sub(t.name, p.origin))
            || (t.Generic? && p.Generic? && h.sub(t.origin, p.origin) && t.args == p.args)
  {
    if p.Union? && p != t {
      forall m | m in p.members ensures CustomSubclassCheck(h, t, m) <==> !t.Union? && ClassMatch(h, m.name, t) {}
    }
  }

  /** A class or generic is below the class of this name. */
  predicate ClassMatch(h: Hierarchy, name: string, t: Type) {
    match t
    case Class(c) => h.sub(c, name)
    case Generic(origin, _) => h.sub(origin, name)
    case _ => false
  }

  /** On well-behaved types, what fits something that fits a parameter fits the parameter. */
  lemma MatchTransitive(h: Hierarchy, types: set<Type>, p: Type, t: Type, u: Type)
    requires WellBehaved(h, types) && p in types && t in types && u in types
    requires TypesMatch(h, p, t) && TypesMatch(h, t, u)
    ensures TypesMatch(h, p, u)
  {
    SimpleMatch(h, p, t);
    SimpleMatch(h, t, u);
    SimpleMatch(h, p, u);
    if p != t && t != u && p.Union? {
      var m :| m in p.members && m.Class? && ClassMatch(h, m.name, t);
      assert ClassMatch(h, m.name, u);
    }
  }

  /**
   * Bare classes that are the origin of a generic break transitivity: a list of strings fits a bare
   * sequence and a bare sequence fits a sequence of integers, but the list does not.
   */
  lemma BareGenericsAreNotTransitive(h: Hierarchy)
    requires h.Valid() && h.sub("list", "Sequence")
    ensures var list := Generic("list", [Class("str")]);
            var sequence := Class("Sequence");
            var sequenceOfInt := Generic("Sequence", [Class("int")]);
            TypesMatch(h, sequenceOfInt, sequence) && TypesMatch(h, sequence, list) &&
              !TypesMatch(h, sequenceOfInt, list)
  {
    assert [Class("str")][0] != [Class("int")][0];
    assert [Class("str")][0] != BASE_ARGS[0] && [Class("int")][0] != BASE_ARGS[0];
  }
}
