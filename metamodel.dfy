/**
 * The part of the API metamodel the Ruby types generator reads: the types of
 * a model (structs with an optional base, enums, primitives), the members of
 * a struct, and the naming service that turns metamodel names into Ruby
 * identifiers. The naming service is not part of this model: its conversions
 * are arbitrary functions, constrained only where the generated layout
 * depends on them.
 */
module Metamodel {
  import opened Text

  /** A metamodel name; names are compared as strings. */
  type Name = string

  /**
   * The primitive types the generator tells apart. Any other primitive type
   * falls through all of its tests and gets no documentation comment.
   */
  datatype PrimitiveKind = BooleanKind | StringKind | IntegerKind | DecimalKind | DateKind | OtherKind

  /** The type of a struct member. */
  datatype Type =
    | Primitive(kind: PrimitiveKind)
    | EnumRef(enumName: Name)
    | StructRef(structName: Name)
    | ListOf(element: Type)

  /** An attribute or a link of a struct. */
  datatype Member = Member(name: Name, memberType: Type)

  function MemberName(m: Member): string { m.name }

  /** A struct type: its name, its base (by name, if any) and its declared attributes and links. */
  datatype StructDecl = StructDecl(name: Name, base: Option<Name>, attributes: seq<Member>, links: seq<Member>)

  function StructName(s: StructDecl): string { s.name }

  datatype EnumDecl = EnumDecl(name: Name, values: seq<Name>)

  /** One of the types a model holds. */
  datatype Declaration =
    | StructType(struct: StructDecl)
    | EnumType(enum: EnumDecl)
    | PrimitiveType(primitive: PrimitiveKind)

  datatype Model = Model(types: seq<Declaration>)

  /** The struct types among `ts`, in their order: the stream filter on StructType. */
  function Structs(ts: seq<Declaration>): (r: seq<StructDecl>)
    ensures forall s :: s in r <==> StructType(s) in ts
    ensures |r| <= |ts|
    decreases |ts|
  {
    if ts == [] then []
    else
      var init := Structs(ts[..|ts| - 1]);
      assert ts == ts[..|ts| - 1] + [ts[|ts| - 1]];
      match ts[|ts| - 1]
      case StructType(s) => init + [s]
      case _ => init
  }

  /** Declarations other than structs contribute nothing to the struct list. */
  lemma {:induction false} StructsAppendOther(ts: seq<Declaration>, d: Declaration)
    requires !d.StructType?
    ensures Structs(ts + [d]) == Structs(ts)
  {
    assert (ts + [d])[..|ts + [d]| - 1] == ts;
  }

  /**
   * The naming service (RubyNames), as the values its conversions return:
   * `typeName` is the text of getTypeName, `className` its class name,
   * `baseStructClassName` the class name of getBaseStructName.
   */
  datatype Naming = Naming(
    typeName: Type -> string,
    className: Type -> string,
    baseStructClassName: string,
    memberStyleName: Name -> string,
    constantStyleName: Name -> string,
    moduleName: string,
    modulePath: string)

  /** Lower-case letters, digits and underscores: a Ruby method or attribute name. */
  predicate IsMemberStyle(s: string) {
    forall i :: 0 <= i < |s| ==> ('a' <= s[i] <= 'z') || ('0' <= s[i] <= '9') || s[i] == '_'
  }

  /** Upper-case letters, digits and underscores: a Ruby constant name. */
  predicate IsConstantStyle(s: string) {
    forall i :: 0 <= i < |s| ==> ('A' <= s[i] <= 'Z') || ('0' <= s[i] <= '9') || s[i] == '_'
  }

  /**
   * The naming service produces identifiers of the two styles its names
   * promise. The layout facts about generated code rely on this and on
   * nothing else the service does.
   */
  ghost predicate ValidNaming(n: Naming) {
    && (forall x :: IsMemberStyle(n.memberStyleName(x)))
    && (forall x :: IsConstantStyle(n.constantStyleName(x)))
  }
}
