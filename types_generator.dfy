/**
 * TypesGenerator: drives a RubyBuffer over the struct types of a model. Each
 * generate* method appends to the buffer exactly the lines its template in
 * Templates lists; the indentation facts then follow from the buffer's
 * invariant and the balance lemmas.
 */
module TypesGeneration {
  import opened Text
  import JavaText
  import opened RubyText
  import opened Metamodel
  import opened TypeOrder
  import opened Templates

  /**
   * addLine, seen through the buffer's history: the line is recorded and
   * nothing but the layout changes. The generator writes every line through it.
   */
  method Append(buffer: RubyBuffer, line: string)
    requires buffer.Valid()
    modifies buffer
    ensures buffer.Valid()
    ensures buffer.history == old(buffer.history) + [line]
    ensures buffer.fileName == old(buffer.fileName) && buffer.required == old(buffer.required)
    ensures buffer.moduleStack == old(buffer.moduleStack)
  {
    buffer.AddLine(line);
  }

  // History bookkeeping: the lines appended one call after another, regrouped
  // into the nested shape of the templates. Stated on abstract pieces, so the
  // verifier never compares the template literals element by element.

  /** Three lines appended one by one are the three-line block; kept apart so the callers never unfold it. */
  lemma Snoc3(h: seq<string>, a: string, b: string, c: string)
    ensures h + [a] + [b] + [c] == h + [a, b, c]
  {
  }

  /** The same for four lines. */
  lemma Snoc4(h: seq<string>, a: string, b: string, c: string, d: string)
    ensures h + [a] + [b] + [c] + [d] == h + [a, b, c, d]
  {
  }

  /** Two stretches of history appended in turn. */
  lemma Then(h0: seq<string>, a: seq<string>, h1: seq<string>, b: seq<string>, h2: seq<string>)
    requires h1 == h0 + a && h2 == h1 + b
    ensures h2 == h0 + (a + b)
  {
  }

  /** A header, a body and `end` appended in turn make one block. */
  lemma Closed(h0: seq<string>, header: string, h1: seq<string>, body: seq<string>, h2: seq<string>, h3: seq<string>)
    requires h1 == h0 + [header] && h2 == h1 + body && h3 == h2 + ["end"]
    ensures h3 == h0 + Block(header, body)
  {
  }

  /** The `##`, `# <text>`, `#` comment. */
  method AddDoc(buffer: RubyBuffer, text: string)
    requires buffer.Valid()
    modifies buffer
    ensures buffer.Valid()
    ensures buffer.history == old(buffer.history) + Doc(text)
    ensures buffer.fileName == old(buffer.fileName) && buffer.required == old(buffer.required)
    ensures buffer.moduleStack == old(buffer.moduleStack)
  {
    ghost var h0 := buffer.history;
    Append(buffer, "##");
    Append(buffer, Comment(text));
    Append(buffer, "#");
    Snoc3(h0, "##", Comment(text), "#");
  }

  /** The comment of a primitive member: one test per primitive type the generator knows. */
  method AddPrimitiveDoc(buffer: RubyBuffer, k: PrimitiveKind, prefix: string, suffix: string)
    requires buffer.Valid()
    modifies buffer
    ensures buffer.Valid()
    ensures buffer.history == old(buffer.history) + PrimitiveDoc(k, prefix, suffix)
    ensures buffer.fileName == old(buffer.fileName) && buffer.required == old(buffer.required)
    ensures buffer.moduleStack == old(buffer.moduleStack)
  {
    if k == BooleanKind {
      AddDoc(buffer, prefix + "boolean" + suffix);
    } else if k == StringKind {
      AddDoc(buffer, prefix + "string" + suffix);
    } else if k == IntegerKind {
      AddDoc(buffer, prefix + "Integer" + suffix);
    } else if k == DecimalKind {
      AddDoc(buffer, prefix + "float" + suffix);
    } else if k == DateKind {
      AddDoc(buffer, prefix + "DateTime" + suffix);
    } else {
      assert old(buffer.history) + [] == old(buffer.history);
    }
  }

  /** `def <p>=(<arg>)`, `@<p> = <arg>`, `end`. */
  method AddPlainWriter(buffer: RubyBuffer, p: string, arg: string)
    requires buffer.Valid()
    modifies buffer
    ensures buffer.Valid()
    ensures buffer.history == old(buffer.history) + PlainWriter(p, arg)
    ensures buffer.fileName == old(buffer.fileName) && buffer.required == old(buffer.required)
    ensures buffer.moduleStack == old(buffer.moduleStack)
  {
    ghost var h0 := buffer.history;
    Append(buffer, Def(Writer(p, arg)));
    ghost var h1 := buffer.history;
    Append(buffer, Store(p, arg));
    ghost var h2 := buffer.history;
    Append(buffer, "end");
    Closed(h0, Def(Writer(p, arg)), h1, [Store(p, arg)], h2, buffer.history);
  }

  /** The writer of a struct-valued property, with its hash coercion. */
  method AddStructWriter(buffer: RubyBuffer, p: string, className: string)
    requires buffer.Valid()
    modifies buffer
    ensures buffer.Valid()
    ensures buffer.history == old(buffer.history) + StructWriter(p, className)
    ensures buffer.fileName == old(buffer.fileName) && buffer.required == old(buffer.required)
    ensures buffer.moduleStack == old(buffer.moduleStack)
  {
    var coerce := "object = " + New(className, "object");
    ghost var h0 := buffer.history;
    Append(buffer, Def(Writer(p, "object")));
    ghost var h1 := buffer.history;
    Append(buffer, If("object.is_a?(Hash)"));
    ghost var h2 := buffer.history;
    Append(buffer, coerce);
    ghost var h3 := buffer.history;
    Append(buffer, "end");
    ghost var h4 := buffer.history;
    Closed(h1, If("object.is_a?(Hash)"), h2, [coerce], h3, h4);
    Append(buffer, Store(p, "object"));
    ghost var h5 := buffer.history;
    Then(h1, Block(If("object.is_a?(Hash)"), [coerce]), h4, [Store(p, "object")], h5);
    Append(buffer, "end");
    Closed(h0, Def(Writer(p, "object")), h1, Block(If("object.is_a?(Hash)"), [coerce]) + [Store(p, "object")], h5, buffer.history);
  }

  /** The inner loop of the writer of a list of structs: each hash element becomes an instance. */
  method AddElementCoercion(buffer: RubyBuffer, className: string)
    requires buffer.Valid()
    modifies buffer
    ensures buffer.Valid()
    ensures buffer.history == old(buffer.history) + ElementLoop(className)
    ensures buffer.fileName == old(buffer.fileName) && buffer.required == old(buffer.required)
    ensures buffer.moduleStack == old(buffer.moduleStack)
  {
    var coerce := "list[index] = " + New(className, "value");
    ghost var h0 := buffer.history;
    Append(buffer, "list.each_with_index do |value, index|");
    ghost var h1 := buffer.history;
    Append(buffer, If("value.is_a?(Hash)"));
    ghost var h2 := buffer.history;
    Append(buffer, coerce);
    ghost var h3 := buffer.history;
    Append(buffer, "end");
    ghost var h4 := buffer.history;
    Closed(h1, If("value.is_a?(Hash)"), h2, [coerce], h3, h4);
    Append(buffer, "end");
    Closed(h0, "list.each_with_index do |value, index|", h1, Block(If("value.is_a?(Hash)"), [coerce]), h4, buffer.history);
  }

  /** The writer of a list of structs. */
  method AddListStructWriter(buffer: RubyBuffer, p: string, className: string)
    requires buffer.Valid()
    modifies buffer
    ensures buffer.Valid()
    ensures buffer.history == old(buffer.history) + ListStructWriter(p, className)
    ensures buffer.fileName == old(buffer.fileName) && buffer.required == old(buffer.required)
    ensures buffer.moduleStack == old(buffer.moduleStack)
  {
    ghost var each := ElementLoop(className);
    ghost var h0 := buffer.history;
    Append(buffer, Def(Writer(p, "list")));
    ghost var h1 := buffer.history;
    Append(buffer, If("list.class == Array"));
    ghost var h2 := buffer.history;
    Append(buffer, "list = List.new(list)");
    ghost var h3 := buffer.history;
    AddElementCoercion(buffer, className);
    ghost var h4 := buffer.history;
    Then(h2, ["list = List.new(list)"], h3, each, h4);
    Append(buffer, "end");
    ghost var h5 := buffer.history;
    Closed(h1, If("list.class == Array"), h2, ["list = List.new(list)"] + each, h4, h5);
    Append(buffer, Store(p, "list"));
    ghost var h6 := buffer.history;
    Then(h1, Block(If("list.class == Array"), ["list = List.new(list)"] + each), h5, [Store(p, "list")], h6);
    Append(buffer, "end");
    Closed(h0, Def(Writer(p, "list")), h1,
      Block(If("list.class == Array"), ["list = List.new(list)"] + each) + [Store(p, "list")], h6, buffer.history);
  }

  /** The header `##` comment of a struct-valued setter and its explanation of the coercion. */
  method AddStructSetterDoc(buffer: RubyBuffer, typeName: string)
    requires buffer.Valid()
    modifies buffer
    ensures buffer.Valid()
    ensures buffer.history == old(buffer.history) + StructSetterDoc(typeName)
    ensures buffer.fileName == old(buffer.fileName) && buffer.required == old(buffer.required)
    ensures buffer.moduleStack == old(buffer.moduleStack)
  {
    var a := Comment("The `object` can be an instance of " + typeName + " or a hash.");
    var b := Comment("If it is a hash then a new instance will be created passing the hash as the ");
    var c := Comment("`opts` parameter to the constructor.");
    ghost var h0 := buffer.history;
    AddDoc(buffer, "Sets the " + typeName + " value.");
    ghost var h1 := buffer.history;
    Append(buffer, a);
    Append(buffer, b);
    Append(buffer, c);
    Append(buffer, "#");
    Snoc4(h1, a, b, c, "#");
    Then(h0, Doc("Sets the " + typeName + " value."), h1, CoercionNote(typeName), buffer.history);
  }

  /** The setter of a list-valued member, by the type of its elements; a list of lists gets none. */
  method AddListSetter(buffer: RubyBuffer, naming: Naming, p: string, e: Type)
    requires buffer.Valid()
    modifies buffer
    ensures buffer.Valid()
    ensures buffer.history == old(buffer.history) + ListSetter(naming, p, e)
    ensures buffer.fileName == old(buffer.fileName) && buffer.required == old(buffer.required)
    ensures buffer.moduleStack == old(buffer.moduleStack)
  {
    ghost var h0 := buffer.history;
    match e {
      case Primitive(k) =>
        AddPrimitiveDoc(buffer, k, "Sets the ", " values.");
        ghost var h1 := buffer.history;
        AddPlainWriter(buffer, p, "list");
        Then(h0, PrimitiveDoc(k, "Sets the ", " values."), h1, PlainWriter(p, "list"), buffer.history);
      case EnumRef(_) =>
        AddDoc(buffer, "Sets the " + naming.typeName(e) + " values.");
        ghost var h1 := buffer.history;
        AddPlainWriter(buffer, p, "list");
        Then(h0, Doc("Sets the " + naming.typeName(e) + " values."), h1, PlainWriter(p, "list"), buffer.history);
      case StructRef(_) =>
        var doc := "Sets the values from a list or array of objects of type " + naming.typeName(e) + ".";
        AddDoc(buffer, doc);
        ghost var h1 := buffer.history;
        AddListStructWriter(buffer, p, naming.className(e));
        Then(h0, Doc(doc), h1, ListStructWriter(p, naming.className(e)), buffer.history);
      case ListOf(_) =>
        assert buffer.history == h0 + [];
    }
  }

  /** The comment of generateGetter, by the kind of the member's type. */
  method AddGetterDoc(buffer: RubyBuffer, naming: Naming, t: Type)
    requires buffer.Valid()
    modifies buffer
    ensures buffer.Valid()
    ensures buffer.history == old(buffer.history) + GetterDoc(naming, t)
    ensures buffer.fileName == old(buffer.fileName) && buffer.required == old(buffer.required)
    ensures buffer.moduleStack == old(buffer.moduleStack)
  {
    match t {
      case Primitive(k) =>
        AddPrimitiveDoc(buffer, k, "Returns the ", " value.");
      case ListOf(e) =>
        AddDoc(buffer, "Returns an array of objects of type " + naming.typeName(e) + ".");
      case EnumRef(_) =>
        AddDoc(buffer, "Returns the " + naming.typeName(t) + " value.");
      case StructRef(_) =>
        AddDoc(buffer, "Returns the " + naming.typeName(t) + " value.");
    }
  }

  /** The setter the kind of a member's type selects. */
  method AddSetter(buffer: RubyBuffer, naming: Naming, p: string, t: Type)
    requires buffer.Valid()
    modifies buffer
    ensures buffer.Valid()
    ensures buffer.history == old(buffer.history) + Setter(naming, p, t)
    ensures buffer.fileName == old(buffer.fileName) && buffer.required == old(buffer.required)
    ensures buffer.moduleStack == old(buffer.moduleStack)
  {
    match t {
      case Primitive(_) => AddPrimitiveSetter(buffer, naming, p, t);
      case EnumRef(_) => AddEnumSetter(buffer, naming, p, t);
      case StructRef(_) => AddStructSetter(buffer, naming, p, t);
      case ListOf(_) => AddListOfSetter(buffer, naming, p, t);
    }
  }

  method AddPrimitiveSetter(buffer: RubyBuffer, naming: Naming, p: string, t: Type)
    requires t.Primitive?
    requires buffer.Valid()
    modifies buffer
    ensures buffer.Valid()
    ensures buffer.history == old(buffer.history) + Setter(naming, p, t)
    ensures buffer.fileName == old(buffer.fileName) && buffer.required == old(buffer.required)
    ensures buffer.moduleStack == old(buffer.moduleStack)
  {
    ghost var h0 := buffer.history;
    AddPrimitiveDoc(buffer, t.kind, "Sets the ", " value.");
    ghost var h1 := buffer.history;
    AddPlainWriter(buffer, p, "value");
    Then(h0, PrimitiveDoc(t.kind, "Sets the ", " value."), h1, PlainWriter(p, "value"), buffer.history);
  }

  method AddEnumSetter(buffer: RubyBuffer, naming: Naming, p: string, t: Type)
    requires t.EnumRef?
    requires buffer.Valid()
    modifies buffer
    ensures buffer.Valid()
    ensures buffer.history == old(buffer.history) + Setter(naming, p, t)
    ensures buffer.fileName == old(buffer.fileName) && buffer.required == old(buffer.required)
    ensures buffer.moduleStack == old(buffer.moduleStack)
  {
    ghost var h0 := buffer.history;
    var doc := "Sets the " + naming.typeName(t) + " value.";
    AddDoc(buffer, doc);
    ghost var h1 := buffer.history;
    Append(buffer, "attr_writer :" + p);
    Then(h0, Doc(doc), h1, ["attr_writer :" + p], buffer.history);
  }

  method AddStructSetter(buffer: RubyBuffer, naming: Naming, p: string, t: Type)
    requires t.StructRef?
    requires buffer.Valid()
    modifies buffer
    ensures buffer.Valid()
    ensures buffer.history == old(buffer.history) + Setter(naming, p, t)
    ensures buffer.fileName == old(buffer.fileName) && buffer.required == old(buffer.required)
    ensures buffer.moduleStack == old(buffer.moduleStack)
  {
    ghost var h0 := buffer.history;
    var typeName, className := naming.typeName(t), naming.className(t);
    AddStructSetterDoc(buffer, typeName);
    ghost var h1 := buffer.history;
    AddStructWriter(buffer, p, className);
    Then(h0, StructSetterDoc(typeName), h1, StructWriter(p, className), buffer.history);
  }

  method AddListOfSetter(buffer: RubyBuffer, naming: Naming, p: string, t: Type)
    requires t.ListOf?
    requires buffer.Valid()
    modifies buffer
    ensures buffer.Valid()
    ensures buffer.history == old(buffer.history) + Setter(naming, p, t)
    ensures buffer.fileName == old(buffer.fileName) && buffer.required == old(buffer.required)
    ensures buffer.moduleStack == old(buffer.moduleStack)
  {
    AddListSetter(buffer, naming, p, t.element);
  }

  /** A buffer whose history grew by a balanced list of lines is back at its level. */
  lemma KeptLevel(h0: seq<string>, ls: seq<string>, h: seq<string>)
    requires h == h0 + ls && Balanced(ls)
    ensures Feed(Start, h).level == Feed(Start, h0).level
  {
    AppendBalanced(h0, ls);
  }

  /**
   * Only the struct types of a model reach the file: a model with one more
   * enum or primitive type has the same order and the same source.
   */
  lemma OtherTypesIgnored(naming: Naming, ts: seq<Declaration>, d: Declaration)
    requires !d.StructType?
    ensures Structs(ts + [d]) == Structs(ts)
    ensures Acyclic(multiset(Structs(ts))) ==>
      Acyclic(multiset(Structs(ts + [d]))) &&
      SourceLines(naming, Order(Structs(ts + [d]))) == SourceLines(naming, Order(Structs(ts)))
  {
    StructsAppendOther(ts, d);
  }

  /**
   * Declaration before use: the class line of every struct with a base comes
   * after the forward declaration of a struct of its base's name, both among
   * the forward declarations and among the complete declarations.
   */
  lemma BaseDeclaredFirst(naming: Naming, structs: seq<StructDecl>, i: nat)
    requires Acyclic(multiset(structs))
    requires i < |Order(structs)| && Order(structs)[i].base.Some?
    ensures var sorted := Order(structs);
      && |ForwardLines(naming, sorted)| == 3 * |sorted|
      && ForwardLines(naming, sorted)[3 * i] == ClassDecl(naming, sorted[i])
      && |BodyLines(naming, sorted[..i])| < |BodyLines(naming, sorted)|
      && BodyLines(naming, sorted)[|BodyLines(naming, sorted[..i])|] == ClassDecl(naming, sorted[i])
      && exists j :: 0 <= j < i && sorted[j].name == sorted[i].base.value &&
           ForwardLines(naming, sorted)[3 * j] == ClassDecl(naming, sorted[j])
  {
    var sorted := Order(structs);
    OrderBasesBefore(structs);
    ForwardShape(naming, sorted);
    BodiesInOrder(naming, sorted, i);
    var j :| 0 <= j < i && sorted[j].name == sorted[i].base.value;
    assert ForwardLines(naming, sorted)[3 * j] == ClassDecl(naming, sorted[j]);
  }

  class TypesGenerator {
    /** The directory the output goes to. */
    var out: string
    /** The naming service. */
    const naming: Naming
    /** The buffer of the file being generated. */
    var buffer: RubyBuffer

    constructor (naming: Naming)
      ensures this.naming == naming && out == ""
      ensures fresh(buffer) && buffer.Valid() && buffer.history == []
    {
      this.naming := naming;
      out := "";
      buffer := new RubyBuffer();
    }

    method SetOut(newOut: string)
      modifies this`out
      ensures out == newOut
    {
      out := newOut;
    }

    /** generateGetter. */
    method GenerateGetter(member: Member)
      requires buffer.Valid()
      modifies buffer
      ensures buffer.Valid()
      ensures buffer.history == old(buffer.history) + GetterLines(naming, member)
      ensures buffer.fileName == old(buffer.fileName) && buffer.required == old(buffer.required)
      ensures buffer.moduleStack == old(buffer.moduleStack)
      ensures ValidNaming(naming) ==> buffer.level == old(buffer.level)
    {
      var p := naming.memberStyleName(member.name);
      var t := member.memberType;
      ghost var h0 := buffer.history;
      AddGetterDoc(buffer, naming, t);
      ghost var h1 := buffer.history;
      Append(buffer, Def(p));
      ghost var h2 := buffer.history;
      Append(buffer, "return @" + p);
      ghost var h3 := buffer.history;
      Append(buffer, "end");
      ghost var h4 := buffer.history;
      Closed(h1, Def(p), h2, ["return @" + p], h3, h4);
      Then(h0, GetterDoc(naming, t), h1, Block(Def(p), ["return @" + p]), h4);
      Append(buffer, "");
      Then(h0, GetterDoc(naming, t) + Block(Def(p), ["return @" + p]), h4, [""], buffer.history);
      if ValidNaming(naming) {
        GetterBalanced(naming, member);
        KeptLevel(h0, GetterLines(naming, member), buffer.history);
      }
    }

    /** generateSetter: the template the kind of the member's type selects. */
    method GenerateSetter(member: Member)
      requires buffer.Valid()
      modifies buffer
      ensures buffer.Valid()
      ensures buffer.history == old(buffer.history) + SetterLines(naming, member)
      ensures buffer.fileName == old(buffer.fileName) && buffer.required == old(buffer.required)
      ensures buffer.moduleStack == old(buffer.moduleStack)
      ensures ValidNaming(naming) ==> buffer.level == old(buffer.level)
    {
      var p := naming.memberStyleName(member.name);
      ghost var h0 := buffer.history;
      AddSetter(buffer, naming, p, member.memberType);
      ghost var h1 := buffer.history;
      Append(buffer, "");
      Then(h0, Setter(naming, p, member.memberType), h1, [""], buffer.history);
      if ValidNaming(naming) {
        SetterBalanced(naming, member);
        KeptLevel(h0, SetterLines(naming, member), buffer.history);
      }
    }

    /** generateMember: the getter, then the setter. */
    method GenerateMember(member: Member)
      requires buffer.Valid()
      modifies buffer
      ensures buffer.Valid()
      ensures buffer.history == old(buffer.history) + MemberLines(naming, member)
      ensures buffer.fileName == old(buffer.fileName) && buffer.required == old(buffer.required)
      ensures buffer.moduleStack == old(buffer.moduleStack)
      ensures ValidNaming(naming) ==> buffer.level == old(buffer.level)
    {
      ghost var h0 := buffer.history;
      GenerateGetter(member);
      ghost var h1 := buffer.history;
      GenerateSetter(member);
      Then(h0, GetterLines(naming, member), h1, SetterLines(naming, member), buffer.history);
    }

    /** The forEach of generateStruct over sorted attributes or links. */
    method GenerateMembers(members: seq<Member>)
      requires buffer.Valid()
      modifies buffer
      ensures buffer.Valid()
      ensures buffer.history == old(buffer.history) + MembersLines(naming, members)
      ensures buffer.fileName == old(buffer.fileName) && buffer.required == old(buffer.required)
      ensures buffer.moduleStack == old(buffer.moduleStack)
      ensures ValidNaming(naming) ==> buffer.level == old(buffer.level)
    {
      ghost var h0 := buffer.history;
      for i := 0 to |members|
        invariant buffer.Valid()
        invariant buffer.history == h0 + MembersLines(naming, members[..i])
        invariant buffer.fileName == old(buffer.fileName) && buffer.required == old(buffer.required)
        invariant buffer.moduleStack == old(buffer.moduleStack)
        invariant ValidNaming(naming) ==> buffer.level == old(buffer.level)
      {
        ghost var h1 := buffer.history;
        GenerateMember(members[i]);
        MembersStep(naming, members, i);
        Then(h0, MembersLines(naming, members[..i]), h1, MemberLines(naming, members[i]), buffer.history);
      }
      assert members[..|members|] == members;
    }

    /** generateClassDeclaration: the class line, with the base's class name or the root struct's. */
    method GenerateClassDeclaration(s: StructDecl)
      requires buffer.Valid()
      modifies buffer
      ensures buffer.Valid()
      ensures buffer.history == old(buffer.history) + [ClassDecl(naming, s)]
      ensures buffer.fileName == old(buffer.fileName) && buffer.required == old(buffer.required)
      ensures buffer.moduleStack == old(buffer.moduleStack)
    {
      var typeName := naming.className(StructRef(s.name));
      var baseName := if s.base.Some? then naming.className(StructRef(s.base.value)) else naming.baseStructClassName;
      Append(buffer, "class " + Subclass(typeName, baseName));
    }

    /** The constructor part of generateStruct: one assignment per member, by member-style name. */
    method GenerateConstructor(s: StructDecl)
      requires buffer.Valid()
      modifies buffer
      ensures buffer.Valid()
      ensures buffer.history == old(buffer.history) + ConstructorLines(naming, s)
      ensures buffer.fileName == old(buffer.fileName) && buffer.required == old(buffer.required)
      ensures buffer.moduleStack == old(buffer.moduleStack)
    {
      var names := SortBy(MemberStyles(naming, s.attributes + s.links), Self);
      ghost var h0 := buffer.history;
      Append(buffer, Def("initialize(opts = {})"));
      ghost var h1 := buffer.history;
      Append(buffer, "super(opts)");
      ghost var h2 := buffer.history;
      for i := 0 to |names|
        invariant buffer.Valid()
        invariant buffer.history == h2 + Assignments(names[..i])
        invariant buffer.fileName == old(buffer.fileName) && buffer.required == old(buffer.required)
        invariant buffer.moduleStack == old(buffer.moduleStack)
      {
        ghost var h := buffer.history;
        Append(buffer, Assignment(names[i]));
        AssignmentsStep(names, i);
        Then(h2, Assignments(names[..i]), h, [Assignment(names[i])], buffer.history);
      }
      assert names[..|names|] == names;
      ghost var h3 := buffer.history;
      Then(h1, ["super(opts)"], h2, Assignments(names), h3);
      Append(buffer, "end");
      ghost var h4 := buffer.history;
      Closed(h0, Def("initialize(opts = {})"), h1, ["super(opts)"] + Assignments(names), h3, h4);
      Append(buffer, "");
      Then(h0, Block(Def("initialize(opts = {})"), ["super(opts)"] + Assignments(names)), h4, [""], buffer.history);
    }

    /** generateStruct: the class line, the members by name, the constructor, `end`. */
    method GenerateStruct(s: StructDecl)
      requires buffer.Valid()
      modifies buffer
      ensures buffer.Valid()
      ensures buffer.history == old(buffer.history) + StructLines(naming, s)
      ensures buffer.fileName == old(buffer.fileName) && buffer.required == old(buffer.required)
      ensures buffer.moduleStack == old(buffer.moduleStack)
      ensures ValidNaming(naming) ==> buffer.level == old(buffer.level)
    {
      var attributes := SortBy(s.attributes, MemberName);
      var links := SortBy(s.links, MemberName);
      ghost var h0 := buffer.history;
      GenerateClassDeclaration(s);
      ghost var h1 := buffer.history;
      Append(buffer, "");
      ghost var h2 := buffer.history;
      GenerateMembers(attributes);
      ghost var h3 := buffer.history;
      Then(h1, [""], h2, MembersLines(naming, attributes), h3);
      GenerateMembers(links);
      ghost var h4 := buffer.history;
      Then(h1, [""] + MembersLines(naming, attributes), h3, MembersLines(naming, links), h4);
      GenerateConstructor(s);
      ghost var h5 := buffer.history;
      ghost var body := [""] + MembersLines(naming, attributes) + MembersLines(naming, links) + ConstructorLines(naming, s);
      Then(h1, [""] + MembersLines(naming, attributes) + MembersLines(naming, links), h4, ConstructorLines(naming, s), h5);
      Append(buffer, "end");
      ghost var h6 := buffer.history;
      Closed(h0, ClassDecl(naming, s), h1, body, h5, h6);
      Append(buffer, "");
      Then(h0, Block(ClassDecl(naming, s), body), h6, [""], buffer.history);
      if ValidNaming(naming) {
        StructBalanced(naming, s);
        KeptLevel(h0, StructLines(naming, s), buffer.history);
      }
    }

    /** generateEnumValue: the constant and its string value. */
    method GenerateEnumValue(v: Name)
      requires buffer.Valid()
      modifies buffer
      ensures buffer.Valid()
      ensures buffer.history == old(buffer.history) + [EnumValueLine(naming, v)]
      ensures buffer.fileName == old(buffer.fileName) && buffer.required == old(buffer.required)
      ensures buffer.moduleStack == old(buffer.moduleStack)
    {
      var constantName := naming.constantStyleName(v);
      var constantValue := naming.memberStyleName(v);
      Append(buffer, constantName + " = '" + constantValue + "'");
    }

    /** generateEnum: a module named after the enum, one constant per value by name, and its `end`s. */
    method GenerateEnum(e: EnumDecl)
      requires buffer.Valid()
      modifies buffer
      ensures buffer.Valid()
      ensures buffer.history == old(buffer.history) + EnumLines(naming, e)
      ensures buffer.fileName == old(buffer.fileName) && buffer.required == old(buffer.required)
      ensures buffer.moduleStack == old(buffer.moduleStack)
      ensures ValidNaming(naming) ==> buffer.level == old(buffer.level)
    {
      var className := naming.className(EnumRef(e.name));
      ghost var components := JavaText.Split(className);
      ghost var h0, stack0 := buffer.history, buffer.moduleStack;
      buffer.BeginModule(className);
      ghost var h1, stack1 := buffer.history, buffer.moduleStack;
      var values := SortBy(e.values, Self);
      for i := 0 to |values|
        invariant buffer.Valid()
        invariant buffer.history == h1 + EnumValueLines(naming, values[..i])
        invariant buffer.fileName == old(buffer.fileName) && buffer.required == old(buffer.required)
        invariant buffer.moduleStack == stack1
      {
        ghost var h := buffer.history;
        GenerateEnumValue(values[i]);
        EnumValuesStep(naming, values, i);
        Then(h1, EnumValueLines(naming, values[..i]), h, [EnumValueLine(naming, values[i])], buffer.history);
      }
      assert values[..|values|] == values;
      ghost var h2 := buffer.history;
      Then(h0, ModuleLines(components), h1, EnumValueLines(naming, values), h2);
      var ok := buffer.EndModule(className);
      assert ok;
      PushedDrop(components, stack0);
      Then(h0, ModuleLines(components) + EnumValueLines(naming, values), h2, EndLines(|components|), buffer.history);
      if ValidNaming(naming) {
        EnumBalanced(naming, e);
        KeptLevel(h0, EnumLines(naming, e), buffer.history);
      }
    }

    /** generateType: structs and enums; any other type writes nothing. */
    method GenerateType(d: Declaration)
      requires buffer.Valid()
      modifies buffer
      ensures buffer.Valid()
      ensures buffer.history == old(buffer.history) + TypeLines(naming, d)
      ensures buffer.fileName == old(buffer.fileName) && buffer.required == old(buffer.required)
      ensures buffer.moduleStack == old(buffer.moduleStack)
      ensures ValidNaming(naming) ==> buffer.level == old(buffer.level)
    {
      match d {
        case StructType(s) => GenerateStruct(s);
        case EnumType(e) => GenerateEnum(e);
        case PrimitiveType(_) => assert buffer.history == old(buffer.history) + [];
      }
    }

    /** The forward declarations of generateSource: each class with an empty body. */
    method GenerateForwardDeclarations(sorted: seq<StructDecl>)
      requires buffer.Valid()
      modifies buffer
      ensures buffer.Valid()
      ensures buffer.history == old(buffer.history) + ForwardLines(naming, sorted)
      ensures buffer.fileName == old(buffer.fileName) && buffer.required == old(buffer.required)
      ensures buffer.moduleStack == old(buffer.moduleStack)
    {
      ghost var h0 := buffer.history;
      for i := 0 to |sorted|
        invariant buffer.Valid()
        invariant buffer.history == h0 + ForwardLines(naming, sorted[..i])
        invariant buffer.fileName == old(buffer.fileName) && buffer.required == old(buffer.required)
        invariant buffer.moduleStack == old(buffer.moduleStack)
      {
        ghost var h1 := buffer.history;
        GenerateClassDeclaration(sorted[i]);
        ghost var h2 := buffer.history;
        Append(buffer, "end");
        ghost var h3 := buffer.history;
        Closed(h1, ClassDecl(naming, sorted[i]), h2, [], h2, h3);
        Append(buffer, "");
        Then(h1, Block(ClassDecl(naming, sorted[i]), []), h3, [""], buffer.history);
        ForwardStep(naming, sorted, i);
        Then(h0, ForwardLines(naming, sorted[..i]), h1, Forward(naming, sorted[i]), buffer.history);
      }
      assert sorted[..|sorted|] == sorted;
    }

    /** The complete declarations of generateSource, in the same order. */
    method GenerateDeclarations(sorted: seq<StructDecl>)
      requires buffer.Valid()
      modifies buffer
      ensures buffer.Valid()
      ensures buffer.history == old(buffer.history) + BodyLines(naming, sorted)
      ensures buffer.fileName == old(buffer.fileName) && buffer.required == old(buffer.required)
      ensures buffer.moduleStack == old(buffer.moduleStack)
    {
      ghost var h0 := buffer.history;
      for i := 0 to |sorted|
        invariant buffer.Valid()
        invariant buffer.history == h0 + BodyLines(naming, sorted[..i])
        invariant buffer.fileName == old(buffer.fileName) && buffer.required == old(buffer.required)
        invariant buffer.moduleStack == old(buffer.moduleStack)
      {
        ghost var h1 := buffer.history;
        GenerateType(StructType(sorted[i]));
        BodyStep(naming, sorted, i);
        Then(h0, BodyLines(naming, sorted[..i]), h1, TypeLines(naming, StructType(sorted[i])), buffer.history);
      }
      assert sorted[..|sorted|] == sorted;
    }

    /**
     * generateSource: the comment, the module, the forward declarations and
     * the complete declarations of the structs in inheritance order, the
     * module's `end`s. The ordering loop only ends when every chain of bases
     * reaches a root inside the model.
     */
    method GenerateSource(model: Model)
      requires buffer.Valid()
      requires Acyclic(multiset(Structs(model.types)))
      modifies buffer
      ensures buffer.Valid()
      ensures buffer.history == old(buffer.history) + SourceLines(naming, Order(Structs(model.types)))
      ensures buffer.fileName == old(buffer.fileName) && buffer.required == old(buffer.required)
      ensures buffer.moduleStack == old(buffer.moduleStack)
      ensures ValidNaming(naming) ==> buffer.level == old(buffer.level)
    {
      ghost var components := JavaText.Split(naming.moduleName);
      ghost var h0, stack0 := buffer.history, buffer.moduleStack;
      AddDoc(buffer, "These forward declarations are required in order to avoid circular dependencies.");
      ghost var h1 := buffer.history;
      buffer.BeginModule(naming.moduleName);
      ghost var h2 := buffer.history;
      Then(h0, Preamble, h1, ModuleLines(components), h2);
      Append(buffer, "");
      ghost var h3 := buffer.history;
      Then(h0, Preamble + ModuleLines(components), h2, [""], h3);
      var sorted := OrderStructs(Structs(model.types));
      GenerateForwardDeclarations(sorted);
      ghost var h4 := buffer.history;
      Then(h0, Preamble + ModuleLines(components) + [""], h3, ForwardLines(naming, sorted), h4);
      GenerateDeclarations(sorted);
      ghost var h5 := buffer.history;
      ghost var front := Preamble + ModuleLines(components) + [""] + ForwardLines(naming, sorted);
      Then(h0, front, h4, BodyLines(naming, sorted), h5);
      var ok := buffer.EndModule(naming.moduleName);
      assert ok;
      PushedDrop(components, stack0);
      ghost var h6 := buffer.history;
      Then(h0, front + BodyLines(naming, sorted), h5, EndLines(|components|), h6);
      Append(buffer, "");
      Then(h0, front + BodyLines(naming, sorted) + EndLines(|components|), h6, [""], buffer.history);
      if ValidNaming(naming) {
        SourceBalanced(naming, sorted);
        KeptLevel(h0, SourceLines(naming, sorted), buffer.history);
      }
    }

    /**
     * generate: a new buffer named after the module path, the source, and
     * the text and path buffer.write would use for the file.
     */
    method Generate(model: Model, separator: char) returns (path: string, text: string)
      requires Acyclic(multiset(Structs(model.types)))
      modifies this`buffer
      ensures fresh(buffer) && buffer.Valid()
      ensures buffer.history == SourceLines(naming, Order(Structs(model.types)))
      ensures text == Render({}, Feed(Start, SourceLines(naming, Order(Structs(model.types)))).lines)
      ensures path == OutputPath(naming.modulePath + "/types", separator)
      ensures buffer.moduleStack == [] && buffer.required == {}
      ensures ValidNaming(naming) ==> buffer.level == 0
    {
      var fileName := naming.modulePath + "/types";
      buffer := new RubyBuffer();
      buffer.SetFileName(fileName);
      GenerateSource(model);
      text := buffer.ToString();
      path := buffer.Path(separator);
    }
  }
}
