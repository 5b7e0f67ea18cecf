/**
 * The lines each generate* method of the types generator hands to the
 * buffer's addLine, before indentation, as values. The generator class
 * emits exactly these lists; the lemmas here say what the lists contain and
 * that their block openers and closers balance.
 */
module Templates {
  import opened Text
  import JavaText
  import opened RubyText
  import opened Metamodel

  // ---------------------------------------------------------------------
  // Building blocks
  // ---------------------------------------------------------------------

  /** A Ruby block: the opening line, the body, and `end`. */
  function Block(header: string, body: seq<string>): seq<string> {
    [header] + body + ["end"]
  }

  /** A comment line. */
  function Comment(text: string): string {
    "# " + text
  }

  /** The `##`, `# <text>`, `#` comment written before a method. */
  function Doc(text: string): seq<string> {
    ["##", Comment(text), "#"]
  }

  /** A method definition line. */
  function Def(signature: string): string {
    "def " + signature
  }

  /** A conditional line. */
  function If(condition: string): string {
    "if " + condition
  }

  /** The signature of the writer method of property `p`, taking `arg`. */
  function Writer(p: string, arg: string): string {
    p + "=(" + arg + ")"
  }

  /** The assignment of `value` to the instance variable of property `p`. */
  function Store(p: string, value: string): string {
    "@" + p + " = " + value
  }

  /** A constructor call. */
  function New(className: string, arg: string): string {
    className + ".new(" + arg + ")"
  }

  /** The `<name> < <base>` part of a class declaration. */
  function Subclass(name: string, base: string): string {
    name + " < " + base
  }

  /**
   * The word the comments use for a primitive type, for the five primitive
   * types the generator tests for; any other primitive type has none.
   */
  function PrimitiveWord(k: PrimitiveKind): Option<string> {
    match k
    case BooleanKind => Some("boolean")
    case StringKind => Some("string")
    case IntegerKind => Some("Integer")
    case DecimalKind => Some("float")
    case DateKind => Some("DateTime")
    case OtherKind => None
  }

  /** The lines of each element in turn, as the generator's forEach loops write them. */
  function Flatten<T>(xs: seq<T>, lines: T -> seq<string>): seq<string>
    decreases |xs|
  {
    if xs == [] then [] else Flatten(xs[..|xs| - 1], lines) + lines(xs[|xs| - 1])
  }

  /** The comment of a primitive member, or no comment for a primitive type the generator does not name. */
  function PrimitiveDoc(k: PrimitiveKind, prefix: string, suffix: string): seq<string> {
    match PrimitiveWord(k)
    case Some(w) => Doc(prefix + w + suffix)
    case None => []
  }

  // ---------------------------------------------------------------------
  // Getters and setters
  // ---------------------------------------------------------------------

  /** The comment of generateGetter, by the kind of the member's type. */
  function GetterDoc(naming: Naming, t: Type): seq<string> {
    match t
    case Primitive(k) => PrimitiveDoc(k, "Returns the ", " value.")
    case ListOf(e) => Doc("Returns an array of objects of type " + naming.typeName(e) + ".")
    case EnumRef(_) => Doc("Returns the " + naming.typeName(t) + " value.")
    case StructRef(_) => Doc("Returns the " + naming.typeName(t) + " value.")
  }

  /** generateGetter. */
  function GetterLines(naming: Naming, m: Member): seq<string> {
    var p := naming.memberStyleName(m.name);
    GetterDoc(naming, m.memberType) + Block(Def(p), ["return @" + p]) + [""]
  }

  /** The longer comment of a struct-valued setter. */
  function StructSetterDoc(typeName: string): seq<string> {
    Doc("Sets the " + typeName + " value.") + CoercionNote(typeName)
  }

  /** The explanation of the hash coercion that follows it. */
  function CoercionNote(typeName: string): seq<string> {
    [Comment("The `object` can be an instance of " + typeName + " or a hash."),
     Comment("If it is a hash then a new instance will be created passing the hash as the "),
     Comment("`opts` parameter to the constructor."),
     "#"]
  }

  /** The writer of a struct-valued property: a hash is turned into an instance first. */
  function StructWriter(p: string, className: string): seq<string> {
    Block(Def(Writer(p, "object")),
      Block(If("object.is_a?(Hash)"), ["object = " + New(className, "object")]) +
      [Store(p, "object")])
  }

  /** The writer of a list of structs: an array becomes a List whose hashes become instances. */
  function ListStructWriter(p: string, className: string): seq<string> {
    Block(Def(Writer(p, "list")),
      Block(If("list.class == Array"), ["list = List.new(list)"] + ElementLoop(className)) +
      [Store(p, "list")])
  }

  /** A writer that stores its argument as it is. */
  function PlainWriter(p: string, arg: string): seq<string> {
    Block(Def(Writer(p, arg)), [Store(p, arg)])
  }

  /** The setter of generateSetter for a list whose elements have type `e`; a list of lists gets none. */
  function ListSetter(naming: Naming, p: string, e: Type): seq<string> {
    match e
    case Primitive(k) => PrimitiveDoc(k, "Sets the ", " values.") + PlainWriter(p, "list")
    case EnumRef(_) => Doc("Sets the " + naming.typeName(e) + " values.") + PlainWriter(p, "list")
    case StructRef(_) =>
      Doc("Sets the values from a list or array of objects of type " + naming.typeName(e) + ".") +
      ListStructWriter(p, naming.className(e))
    case ListOf(_) => []
  }

  /** The setter proper, chosen by the kind of the member's type. */
  function Setter(naming: Naming, p: string, t: Type): seq<string> {
    match t
    case Primitive(k) => PrimitiveDoc(k, "Sets the ", " value.") + PlainWriter(p, "value")
    case EnumRef(_) => Doc("Sets the " + naming.typeName(t) + " value.") + ["attr_writer :" + p]
    case StructRef(_) => StructSetterDoc(naming.typeName(t)) + StructWriter(p, naming.className(t))
    case ListOf(e) => ListSetter(naming, p, e)
  }

  /** generateSetter: the setter, then an empty line. */
  function SetterLines(naming: Naming, m: Member): seq<string> {
    Setter(naming, naming.memberStyleName(m.name), m.memberType) + [""]
  }

  /** generateMember. */
  function MemberLines(naming: Naming, m: Member): seq<string> {
    GetterLines(naming, m) + SetterLines(naming, m)
  }

  /** generateMember for each member in turn. */
  function MembersLines(naming: Naming, ms: seq<Member>): seq<string> {
    Flatten(ms, m => MemberLines(naming, m))
  }

  // ---------------------------------------------------------------------
  // Constructors, class declarations, structs and enums
  // ---------------------------------------------------------------------

  /** The member-style names of the members, in their order. */
  function MemberStyles(naming: Naming, ms: seq<Member>): (r: seq<string>)
    ensures |r| == |ms|
    ensures forall i :: 0 <= i < |ms| ==> r[i] == naming.memberStyleName(ms[i].name)
  {
    seq(|ms|, i requires 0 <= i < |ms| => naming.memberStyleName(ms[i].name))
  }

  /** The names the constructor assigns: attributes and links together, by member-style name. */
  function ConstructorNames(naming: Naming, s: StructDecl): seq<string> {
    SortBy(MemberStyles(naming, s.attributes + s.links), Self)
  }

  /** The `self.x = opts[:x]` line. */
  function Assignment(x: string): string {
    "self." + x + " = opts[:" + x + "]"
  }

  function Assignments(xs: seq<string>): (r: seq<string>)
    ensures |r| == |xs|
    ensures forall i :: 0 <= i < |xs| ==> r[i] == Assignment(xs[i])
  {
    seq(|xs|, i requires 0 <= i < |xs| => Assignment(xs[i]))
  }

  /** The constructor generateStruct writes, then an empty line. */
  function ConstructorLines(naming: Naming, s: StructDecl): seq<string> {
    Block(Def("initialize(opts = {})"), ["super(opts)"] + Assignments(ConstructorNames(naming, s))) + [""]
  }

  /** The class name of the base, or of the root struct class when there is no base. */
  function BaseClassName(naming: Naming, s: StructDecl): string {
    match s.base
    case None => naming.baseStructClassName
    case Some(b) => naming.className(StructRef(b))
  }

  /** generateClassDeclaration. */
  function ClassDecl(naming: Naming, s: StructDecl): string {
    "class " + Subclass(naming.className(StructRef(s.name)), BaseClassName(naming, s))
  }

  /** generateStruct: the class, its members by name, the constructor. */
  function StructLines(naming: Naming, s: StructDecl): seq<string> {
    Block(ClassDecl(naming, s),
      [""] +
      MembersLines(naming, SortBy(s.attributes, MemberName)) +
      MembersLines(naming, SortBy(s.links, MemberName)) +
      ConstructorLines(naming, s))
    + [""]
  }

  /** generateEnumValue. */
  function EnumValueLine(naming: Naming, v: Name): string {
    naming.constantStyleName(v) + " = '" + naming.memberStyleName(v) + "'"
  }

  function EnumValueLines(naming: Naming, vs: seq<Name>): (r: seq<string>)
    ensures |r| == |vs|
    ensures forall i :: 0 <= i < |vs| ==> r[i] == EnumValueLine(naming, vs[i])
  {
    seq(|vs|, i requires 0 <= i < |vs| => EnumValueLine(naming, vs[i]))
  }

  /** generateEnum: a module named after the enum holding one constant per value, by name. */
  function EnumLines(naming: Naming, e: EnumDecl): seq<string> {
    var components := JavaText.Split(naming.className(EnumRef(e.name)));
    ModuleLines(components) + EnumValueLines(naming, SortBy(e.values, Self)) + EndLines(|components|)
  }

  /** generateType. */
  function TypeLines(naming: Naming, d: Declaration): seq<string> {
    match d
    case StructType(s) => StructLines(naming, s)
    case EnumType(e) => EnumLines(naming, e)
    case PrimitiveType(_) => []
  }

  // ---------------------------------------------------------------------
  // The whole file
  // ---------------------------------------------------------------------

  /** A forward declaration: the class with an empty body, then an empty line. */
  function Forward(naming: Naming, s: StructDecl): seq<string> {
    Block(ClassDecl(naming, s), []) + [""]
  }

  /** The forward declarations, in the given order. */
  function ForwardLines(naming: Naming, ss: seq<StructDecl>): seq<string> {
    Flatten(ss, s => Forward(naming, s))
  }

  /** The complete declarations, through generateType, in the given order. */
  function BodyLines(naming: Naming, ss: seq<StructDecl>): seq<string> {
    Flatten(ss, s => TypeLines(naming, StructType(s)))
  }

  const Preamble: seq<string> :=
    Doc("These forward declarations are required in order to avoid circular dependencies.")

  /** generateSource, given the declaration order of the structs. */
  function SourceLines(naming: Naming, sorted: seq<StructDecl>): seq<string> {
    var components := JavaText.Split(naming.moduleName);
    Preamble + ModuleLines(components) + [""] +
    ForwardLines(naming, sorted) + BodyLines(naming, sorted) +
    EndLines(|components|) + [""]
  }

  // ---------------------------------------------------------------------
  // Formatting: the format strings of the source give these concatenations
  // ---------------------------------------------------------------------

  /** The `module %1$s` line of beginModule. */
  lemma ModuleLineFormat(component: string)
    ensures JavaText.Format("module %1$s", [component]) == JavaText.Formatted("module " + component)
  {
    JavaText.FormatOneIndexed("module ", "", component);
    assert "module " + "%1$s" + "" == "module %1$s";
    assert "module " + component + "" == "module " + component;
  }

  /** The `def %1$s` line of generateGetter. */
  lemma GetterFormat(property: string)
    ensures JavaText.Format("def %1$s", [property]) == JavaText.Formatted("def " + property)
  {
    JavaText.FormatOneIndexed("def ", "", property);
    assert "def " + "%1$s" + "" == "def %1$s";
    assert "def " + property + "" == "def " + property;
  }

  /** The `%s = '%s'` line of generateEnumValue. */
  lemma EnumValueFormat(naming: Naming, v: Name)
    ensures JavaText.Format("%s = '%s'", [naming.constantStyleName(v), naming.memberStyleName(v)])
      == JavaText.Formatted(EnumValueLine(naming, v))
  {
    var c, m := naming.constantStyleName(v), naming.memberStyleName(v);
    JavaText.FormatTwoOrdinary("", " = '", "'", c, m);
    assert "" + "%s" + " = '" + "%s" + "'" == "%s = '%s'";
    assert "" + c + " = '" + m + "'" == EnumValueLine(naming, v);
  }

  /** The `class %1$s < %2$s` line of generateClassDeclaration. */
  lemma ClassDeclFormat(naming: Naming, s: StructDecl)
    ensures JavaText.Format("class %1$s < %2$s", [naming.className(StructRef(s.name)), BaseClassName(naming, s)])
      == JavaText.Formatted(ClassDecl(naming, s))
  {
    var args := [naming.className(StructRef(s.name)), BaseClassName(naming, s)];
    JavaText.FormatTwoIndexed("class ", '1', " < ", '2', "", args);
    assert "class " + JavaText.IndexSpec('1') + " < " + JavaText.IndexSpec('2') + "" == "class %1$s < %2$s";
    assert "class " + args[0] + " < " + args[1] + "" == ClassDecl(naming, s);
  }

  /** The `self.%1$s = opts[:%1$s]` line of the constructor. */
  lemma AssignmentFormat(x: string)
    ensures JavaText.Format("self.%1$s = opts[:%1$s]", [x]) == JavaText.Formatted(Assignment(x))
  {
    JavaText.FormatTwoIndexed("self.", '1', " = opts[:", '1', "]", [x]);
    assert JavaText.IndexSpec('1') == "%1$s";
    assert "self." + JavaText.IndexSpec('1') + " = opts[:" + JavaText.IndexSpec('1') + "]" == "self.%1$s = opts[:%1$s]";
  }

  // ---------------------------------------------------------------------
  // Lines that open, close or leave the indentation alone
  // ---------------------------------------------------------------------

  ghost predicate AllNeutral(ls: seq<string>) {
    forall i :: 0 <= i < |ls| ==> Neutral(ls[i])
  }

  /** A comment line is neutral unless it ends with an opening bracket or a bar. */
  lemma CommentNeutral(text: string)
    requires text != [] && text[|text| - 1] !in "([|"
    ensures Neutral(Comment(text))
  {
    var line := Comment(text);
    assert line[0] == '#' && line[|line| - 1] == text[|text| - 1];
    NeutralShape(line);
  }

  /** The comment before a method leaves the indentation alone when its text ends with a full stop. */
  lemma DocBalanced(text: string)
    requires text != [] && text[|text| - 1] == '.'
    ensures Balanced(Doc(text))
  {
    CommentNeutral(text);
    HashLinesNeutral();
    Neutral3Balanced("##", Comment(text), "#");
  }

  lemma HashLinesNeutral()
    ensures Neutral("##") && Neutral("#")
  {
    NeutralShape("##");
    NeutralShape("#");
  }

  lemma Neutral3Balanced(a: string, b: string, c: string)
    requires Neutral(a) && Neutral(b) && Neutral(c)
    ensures Balanced([a, b, c])
  {
    BalancedNeutral([a, b, c]);
  }

  lemma Neutral4Balanced(a: string, b: string, c: string, d: string)
    requires Neutral(a) && Neutral(b) && Neutral(c) && Neutral(d)
    ensures Balanced([a, b, c, d])
  {
    BalancedNeutral([a, b, c, d]);
  }

  /** The same for a comment naming a type. */
  lemma TypedDocBalanced(before: string, name: string, after: string)
    requires after != [] && after[|after| - 1] == '.'
    ensures Balanced(Doc(before + name + after))
  {
    var text := before + name + after;
    assert text[|text| - 1] == '.';
    DocBalanced(text);
  }

  lemma PrimitiveDocBalanced(k: PrimitiveKind, prefix: string, suffix: string)
    requires suffix != [] && suffix[|suffix| - 1] == '.'
    ensures Balanced(PrimitiveDoc(k, prefix, suffix))
  {
    match PrimitiveWord(k)
    case Some(w) => TypedDocBalanced(prefix, w, suffix);
    case None => BalancedNeutral([]);
  }

  /** A line starting with one of these keywords opens a block and closes none. */
  lemma KeywordOpens(keyword: string, rest: string)
    requires keyword == "def " || keyword == "if " || keyword == "class "
    ensures IsBegin(keyword + rest) && !IsEnd(keyword + rest)
  {
    var line := keyword + rest;
    StartsWithConcat(keyword, rest);
    assert line[0] == keyword[0] && line[1] == keyword[1];
    NotStartsWith(line, "when ", 0);
  }

  /** A line `<prefix><p>` with a member-style `p` is neutral when the prefix is. */
  lemma NeutralWithName(prefix: string, p: string)
    requires prefix != [] && prefix[0] !in "bcdeilmuw)]" && prefix[|prefix| - 1] !in "([|"
    requires IsMemberStyle(p)
    ensures Neutral(prefix + p)
  {
    var line := prefix + p;
    assert line[0] == prefix[0];
    if p != [] {
      assert line[|line| - 1] == p[|p| - 1];
    } else {
      assert line == prefix;
    }
    NeutralShape(line);
  }

  lemma StoreNeutral(p: string, value: string)
    requires value != [] && value[|value| - 1] !in "([|"
    ensures Neutral(Store(p, value))
  {
    var line := Store(p, value);
    assert line[0] == '@' && line[|line| - 1] == value[|value| - 1];
    NeutralShape(line);
  }

  // ---------------------------------------------------------------------
  // Balance of each template
  // ---------------------------------------------------------------------

  lemma Balanced3(a: seq<string>, b: seq<string>, c: seq<string>)
    requires Balanced(a) && Balanced(b) && Balanced(c)
    ensures Balanced(a + b + c)
  {
    BalancedAppend(a, b);
    BalancedAppend(a + b, c);
  }

  lemma EmptyBalanced()
    ensures Balanced([""]) && Balanced([])
  {
    EmptyLineNeutral();
    BalancedNeutral([""]);
    BalancedNeutral([]);
  }

  lemma NeutralBalanced(line: string)
    requires Neutral(line)
    ensures Balanced([line])
  {
    BalancedNeutral([line]);
  }

  lemma DefBalanced(signature: string, body: seq<string>)
    requires Balanced(body)
    ensures Balanced(Block(Def(signature), body))
  {
    KeywordOpens("def ", signature);
    BalancedBlock(Def(signature), body);
  }

  lemma IfBalanced(condition: string, body: seq<string>)
    requires Balanced(body)
    ensures Balanced(Block(If(condition), body))
  {
    KeywordOpens("if ", condition);
    BalancedBlock(If(condition), body);
  }

  /** Each getter's `def` is closed by its `end`. */
  lemma GetterBalanced(naming: Naming, m: Member)
    requires ValidNaming(naming)
    ensures Balanced(GetterLines(naming, m))
  {
    var p := naming.memberStyleName(m.name);
    assert IsMemberStyle(p);
    GetterDocBalanced(naming, m.memberType);
    ReaderBalanced(p);
    EmptyBalanced();
    Balanced3(GetterDoc(naming, m.memberType), Block(Def(p), ["return @" + p]), [""]);
  }

  lemma GetterDocBalanced(naming: Naming, t: Type)
    ensures Balanced(GetterDoc(naming, t))
  {
    if t.Primitive? {
      PrimitiveDocBalanced(t.kind, "Returns the ", " value.");
    } else {
      TypedGetterDocBalanced(naming, t);
    }
  }

  lemma TypedGetterDocBalanced(naming: Naming, t: Type)
    requires !t.Primitive?
    ensures Balanced(GetterDoc(naming, t))
  {
    if t.ListOf? {
      TypedDocBalanced("Returns an array of objects of type ", naming.typeName(t.element), ".");
    } else {
      TypedDocBalanced("Returns the ", naming.typeName(t), " value.");
    }
  }

  /** The method of a getter: `def p`, `return @p`, `end`. */
  lemma ReaderBalanced(p: string)
    requires IsMemberStyle(p)
    ensures Balanced(Block(Def(p), ["return @" + p]))
  {
    var prefix := "return @";
    assert prefix[0] == 'r' && prefix[|prefix| - 1] == '@';
    NeutralWithName(prefix, p);
    NeutralBalanced(prefix + p);
    DefBalanced(p, [prefix + p]);
  }

  /** The four lines that explain the hash coercion. */
  lemma CoercionNoteBalanced(typeName: string)
    ensures Balanced(CoercionNote(typeName))
  {
    var sentence := "The `object` can be an instance of " + typeName + " or a hash.";
    assert sentence[|sentence| - 1] == '.';
    CommentNeutral(sentence);
    HashCommentNeutral();
    HashLinesNeutral();
    Neutral4Balanced(Comment(sentence),
      Comment("If it is a hash then a new instance will be created passing the hash as the "),
      Comment("`opts` parameter to the constructor."), "#");
  }

  lemma StructSetterDocBalanced(typeName: string)
    ensures Balanced(StructSetterDoc(typeName))
  {
    TypedDocBalanced("Sets the ", typeName, " value.");
    CoercionNoteBalanced(typeName);
    BalancedAppend(Doc("Sets the " + typeName + " value."), CoercionNote(typeName));
  }

  lemma HashCommentNeutral()
    ensures Neutral(Comment("If it is a hash then a new instance will be created passing the hash as the "))
    ensures Neutral(Comment("`opts` parameter to the constructor."))
  {
    CommentNeutral("If it is a hash then a new instance will be created passing the hash as the ");
    CommentNeutral("`opts` parameter to the constructor.");
  }

  lemma PlainWriterBalanced(p: string, arg: string)
    requires arg == "value" || arg == "list"
    ensures Balanced(PlainWriter(p, arg))
  {
    StoreNeutral(p, arg);
    NeutralBalanced(Store(p, arg));
    DefBalanced(Writer(p, arg), [Store(p, arg)]);
  }

  lemma StructWriterBalanced(p: string, className: string)
    ensures Balanced(StructWriter(p, className))
  {
    var coercion := Block(If("object.is_a?(Hash)"), ["object = " + New(className, "object")]);
    HashCoercionBalanced(className);
    StoreNeutral(p, "object");
    NeutralBalanced(Store(p, "object"));
    BalancedAppend(coercion, [Store(p, "object")]);
    DefBalanced(Writer(p, "object"), coercion + [Store(p, "object")]);
  }

  lemma HashCoercionBalanced(className: string)
    ensures Balanced(Block(If("object.is_a?(Hash)"), ["object = " + New(className, "object")]))
  {
    var coerce := "object = " + New(className, "object");
    assert coerce[0] == 'o' && coerce[|coerce| - 1] == ')';
    NeutralShape(coerce);
    NeutralBalanced(coerce);
    IfBalanced("object.is_a?(Hash)", [coerce]);
  }

  lemma EachOpens()
    ensures IsBegin("list.each_with_index do |value, index|")
    ensures !IsEnd("list.each_with_index do |value, index|")
  {
    var each := "list.each_with_index do |value, index|";
    EndsWithOne(each, '|');
    NotStartsWith(each, "when ", 0);
  }

  lemma WrapNeutral()
    ensures Neutral("list = List.new(list)")
  {
    NeutralList("list = List.new(list)");
  }

  lemma ListStructWriterBalanced(p: string, className: string)
    ensures Balanced(ListStructWriter(p, className))
  {
    var guard := Block(If("list.class == Array"), ["list = List.new(list)"] + ElementLoop(className));
    ArrayGuardBalanced(className);
    StoreNeutral(p, "list");
    NeutralBalanced(Store(p, "list"));
    BalancedAppend(guard, [Store(p, "list")]);
    DefBalanced(Writer(p, "list"), guard + [Store(p, "list")]);
  }

  /** The loop of the list-of-structs writer that coerces each hash element. */
  function ElementLoop(className: string): seq<string> {
    Block("list.each_with_index do |value, index|",
      Block(If("value.is_a?(Hash)"), ["list[index] = " + New(className, "value")]))
  }

  lemma ElementLoopBalanced(className: string)
    ensures Balanced(ElementLoop(className))
  {
    var store := "list[index] = " + New(className, "value");
    assert store[0] == 'l' && store[1] == 'i' && store[|store| - 1] == ')';
    NeutralList(store);
    NeutralBalanced(store);
    IfBalanced("value.is_a?(Hash)", [store]);
    EachOpens();
    BalancedBlock("list.each_with_index do |value, index|", Block(If("value.is_a?(Hash)"), [store]));
  }

  lemma ArrayGuardBalanced(className: string)
    ensures Balanced(Block(If("list.class == Array"), ["list = List.new(list)"] + ElementLoop(className)))
  {
    ElementLoopBalanced(className);
    WrapNeutral();
    NeutralBalanced("list = List.new(list)");
    BalancedAppend(["list = List.new(list)"], ElementLoop(className));
    IfBalanced("list.class == Array", ["list = List.new(list)"] + ElementLoop(className));
  }

  lemma ListSetterBalanced(naming: Naming, p: string, e: Type)
    ensures Balanced(ListSetter(naming, p, e))
  {
    match e {
      case Primitive(k) =>
        PrimitiveDocBalanced(k, "Sets the ", " values.");
        PlainWriterBalanced(p, "list");
        BalancedAppend(PrimitiveDoc(k, "Sets the ", " values."), PlainWriter(p, "list"));
      case EnumRef(_) =>
        TypedDocBalanced("Sets the ", naming.typeName(e), " values.");
        PlainWriterBalanced(p, "list");
        BalancedAppend(Doc("Sets the " + naming.typeName(e) + " values."), PlainWriter(p, "list"));
      case StructRef(_) =>
        TypedDocBalanced("Sets the values from a list or array of objects of type ", naming.typeName(e), ".");
        ListStructWriterBalanced(p, naming.className(e));
        BalancedAppend(Doc("Sets the values from a list or array of objects of type " + naming.typeName(e) + "."),
          ListStructWriter(p, naming.className(e)));
      case ListOf(_) =>
        EmptyBalanced();
    }
  }

  /** Each setter's blocks close, whichever template the member's type selects. */
  lemma SetterBalanced(naming: Naming, m: Member)
    requires ValidNaming(naming)
    ensures Balanced(SetterLines(naming, m))
  {
    var p := naming.memberStyleName(m.name);
    assert IsMemberStyle(p);
    var t := m.memberType;
    match t {
      case Primitive(_) => PrimitiveSetterBalanced(naming, p, t);
      case EnumRef(_) => EnumSetterBalanced(naming, p, t);
      case StructRef(_) => StructSetterBalanced(naming, p, t);
      case ListOf(e) => ListOfSetterBalanced(naming, p, t);
    }
    EmptyBalanced();
    BalancedAppend(Setter(naming, p, t), [""]);
  }

  lemma PrimitiveSetterBalanced(naming: Naming, p: string, t: Type)
    requires t.Primitive?
    ensures Balanced(Setter(naming, p, t))
  {
    var k := t.kind;
    PrimitiveDocBalanced(k, "Sets the ", " value.");
    PlainWriterBalanced(p, "value");
    BalancedAppend(PrimitiveDoc(k, "Sets the ", " value."), PlainWriter(p, "value"));
  }

  lemma EnumSetterBalanced(naming: Naming, p: string, t: Type)
    requires t.EnumRef? && IsMemberStyle(p)
    ensures Balanced(Setter(naming, p, t))
  {
    var typeName := naming.typeName(t);
    TypedDocBalanced("Sets the ", typeName, " value.");
    AttrWriterNeutral(p);
    NeutralBalanced("attr_writer :" + p);
    BalancedAppend(Doc("Sets the " + typeName + " value."), ["attr_writer :" + p]);
  }

  lemma AttrWriterNeutral(p: string)
    requires IsMemberStyle(p)
    ensures Neutral("attr_writer :" + p)
  {
    var prefix := "attr_writer :";
    assert prefix[0] == 'a' && prefix[|prefix| - 1] == ':';
    NeutralWithName(prefix, p);
  }

  lemma StructSetterBalanced(naming: Naming, p: string, t: Type)
    requires t.StructRef?
    ensures Balanced(Setter(naming, p, t))
  {
    var typeName, className := naming.typeName(t), naming.className(t);
    StructSetterDocBalanced(typeName);
    StructWriterBalanced(p, className);
    BalancedAppend(StructSetterDoc(typeName), StructWriter(p, className));
  }

  lemma ListOfSetterBalanced(naming: Naming, p: string, t: Type)
    requires t.ListOf?
    ensures Balanced(Setter(naming, p, t))
  {
    ListSetterBalanced(naming, p, t.element);
  }

  lemma {:induction false} FlattenBalanced<T>(xs: seq<T>, lines: T -> seq<string>)
    requires forall i :: 0 <= i < |xs| ==> Balanced(lines(xs[i]))
    ensures Balanced(Flatten(xs, lines))
    decreases |xs|
  {
    if xs == [] {
      EmptyBalanced();
    } else {
      FlattenBalanced(xs[..|xs| - 1], lines);
      BalancedAppend(Flatten(xs[..|xs| - 1], lines), lines(xs[|xs| - 1]));
    }
  }

  lemma MembersBalanced(naming: Naming, ms: seq<Member>)
    requires ValidNaming(naming)
    ensures Balanced(MembersLines(naming, ms))
  {
    forall i | 0 <= i < |ms| ensures Balanced(MemberLines(naming, ms[i])) {
      GetterBalanced(naming, ms[i]);
      SetterBalanced(naming, ms[i]);
      BalancedAppend(GetterLines(naming, ms[i]), SetterLines(naming, ms[i]));
    }
    FlattenBalanced(ms, m => MemberLines(naming, m));
  }

  /** The constructor balances whatever the names: its assignments end with `]`. */
  lemma ConstructorBalanced(naming: Naming, s: StructDecl)
    ensures Balanced(ConstructorLines(naming, s))
  {
    var body := ["super(opts)"] + Assignments(ConstructorNames(naming, s));
    ConstructorBodyBalanced(ConstructorNames(naming, s));
    DefBalanced("initialize(opts = {})", body);
    EmptyBalanced();
    BalancedAppend(Block(Def("initialize(opts = {})"), body), [""]);
  }

  lemma ConstructorBodyBalanced(names: seq<string>)
    ensures Balanced(["super(opts)"] + Assignments(names))
  {
    var body := ["super(opts)"] + Assignments(names);
    forall i | 0 <= i < |body| ensures Neutral(body[i]) {
      if i == 0 {
        SuperNeutral();
      } else {
        assert body[i] == Assignment(names[i - 1]);
        AssignmentNeutral(names[i - 1]);
      }
    }
    BalancedNeutral(body);
  }

  lemma SuperNeutral()
    ensures Neutral("super(opts)")
  {
    NeutralShape("super(opts)");
  }

  lemma AssignmentNeutral(x: string)
    ensures Neutral(Assignment(x))
  {
    var line := Assignment(x);
    assert line[0] == 's' && line[|line| - 1] == ']';
    NeutralShape(line);
  }

  lemma ClassBalanced(naming: Naming, s: StructDecl, body: seq<string>)
    requires Balanced(body)
    ensures Balanced(Block(ClassDecl(naming, s), body) + [""])
  {
    KeywordOpens("class ", Subclass(naming.className(StructRef(s.name)), BaseClassName(naming, s)));
    BalancedBlock(ClassDecl(naming, s), body);
    EmptyBalanced();
    BalancedAppend(Block(ClassDecl(naming, s), body), [""]);
  }

  /** A struct's class block holds balanced members and constructor and is closed by its `end`. */
  lemma StructBalanced(naming: Naming, s: StructDecl)
    requires ValidNaming(naming)
    ensures Balanced(StructLines(naming, s))
  {
    var attributes := MembersLines(naming, SortBy(s.attributes, MemberName));
    var links := MembersLines(naming, SortBy(s.links, MemberName));
    var ctor := ConstructorLines(naming, s);
    EmptyBalanced();
    MembersBalanced(naming, SortBy(s.attributes, MemberName));
    MembersBalanced(naming, SortBy(s.links, MemberName));
    ConstructorBalanced(naming, s);
    Balanced3([""], attributes, links);
    BalancedAppend([""] + attributes + links, ctor);
    ClassBalanced(naming, s, [""] + attributes + links + ctor);
  }

  lemma ForwardBalanced(naming: Naming, ss: seq<StructDecl>)
    ensures Balanced(ForwardLines(naming, ss))
  {
    forall i | 0 <= i < |ss| ensures Balanced(Forward(naming, ss[i])) {
      ClassBalanced(naming, ss[i], []);
    }
    FlattenBalanced(ss, s => Forward(naming, s));
  }

  lemma BodiesBalanced(naming: Naming, ss: seq<StructDecl>)
    requires ValidNaming(naming)
    ensures Balanced(BodyLines(naming, ss))
  {
    forall i | 0 <= i < |ss| ensures Balanced(StructLines(naming, ss[i])) {
      StructBalanced(naming, ss[i]);
    }
    FlattenBalanced(ss, s => TypeLines(naming, StructType(s)));
  }

  /** A balanced list of lines also balances inside `open` enclosing blocks. */
  lemma BalancedInside(ls: seq<string>, open: nat)
    requires Balanced(ls)
    ensures Walk(ls, open) == Some(open)
  {
    WalkShift(ls, 0, open);
  }

  /** An enum constant line is neutral. */
  lemma EnumValueNeutral(naming: Naming, v: Name)
    requires ValidNaming(naming)
    ensures Neutral(EnumValueLine(naming, v))
  {
    var c := naming.constantStyleName(v);
    assert IsConstantStyle(c);
    var line := EnumValueLine(naming, v);
    assert line[|line| - 1] == '\'';
    if c != [] {
      assert line[0] == c[0];
    } else {
      assert line[0] == ' ';
    }
    NeutralShape(line);
  }

  /** An enum module opens one block per component and closes them all. */
  lemma EnumBalanced(naming: Naming, e: EnumDecl)
    requires ValidNaming(naming)
    ensures Balanced(EnumLines(naming, e))
  {
    var components := JavaText.Split(naming.className(EnumRef(e.name)));
    var k := |components|;
    var values := EnumValueLines(naming, SortBy(e.values, Self));
    forall i | 0 <= i < |values| ensures Neutral(values[i]) {
      EnumValueNeutral(naming, SortBy(e.values, Self)[i]);
    }
    ModuleLinesOpen(components);
    WalkNeutral(values, k);
    EndLinesBalance(k);
    WalkAppend(ModuleLines(components), values, 0);
    WalkAppend(ModuleLines(components) + values, EndLines(k), 0);
  }

  lemma PreambleBalanced()
    ensures Balanced(Preamble)
  {
    DocBalanced("These forward declarations are required in order to avoid circular dependencies.");
  }

  /** The whole generated file balances: the level is back at 0 after it. */
  lemma SourceBalanced(naming: Naming, sorted: seq<StructDecl>)
    requires ValidNaming(naming)
    ensures Balanced(SourceLines(naming, sorted))
  {
    var components := JavaText.Split(naming.moduleName);
    var k := |components|;
    var forward, bodies := ForwardLines(naming, sorted), BodyLines(naming, sorted);
    PreambleBalanced();
    ModuleLinesOpen(components);
    EmptyBalanced();
    ForwardBalanced(naming, sorted);
    BodiesBalanced(naming, sorted);
    BalancedInside([""], k);
    BalancedInside(forward, k);
    BalancedInside(bodies, k);
    EndLinesBalance(k);
    var a := Preamble + ModuleLines(components);
    WalkAppend(Preamble, ModuleLines(components), 0);
    var b := a + [""];
    WalkAppend(a, [""], 0);
    var c := b + forward;
    WalkAppend(b, forward, 0);
    var d := c + bodies;
    WalkAppend(c, bodies, 0);
    var e := d + EndLines(k);
    WalkAppend(d, EndLines(k), 0);
    WalkAppend(e, [""], 0);
  }

  // ---------------------------------------------------------------------
  // What each template contains
  // ---------------------------------------------------------------------

  /** No line of `ls` starts with the character `c`. */
  ghost predicate Avoids(ls: seq<string>, c: char) {
    forall i :: 0 <= i < |ls| ==> ls[i] == [] || ls[i][0] != c
  }

  lemma AvoidsAppend(a: seq<string>, b: seq<string>, c: char)
    requires Avoids(a, c) && Avoids(b, c)
    ensures Avoids(a + b, c)
  {
    forall i | 0 <= i < |a + b| ensures (a + b)[i] == [] || (a + b)[i][0] != c {
      if i >= |a| {
        assert (a + b)[i] == b[i - |a|];
      }
    }
  }

  /** A line starting with a character no line of `ls` starts with is not among them. */
  lemma AvoidsNotIn(ls: seq<string>, line: string)
    requires line != [] && Avoids(ls, line[0])
    ensures line !in ls
  {
  }

  lemma DocAvoids(text: string, c: char)
    requires c != '#'
    ensures Avoids(Doc(text), c)
  {
    assert Comment(text)[0] == '#';
  }

  lemma PrimitiveDocAvoids(k: PrimitiveKind, prefix: string, suffix: string, c: char)
    requires c != '#'
    ensures Avoids(PrimitiveDoc(k, prefix, suffix), c)
  {
    match PrimitiveWord(k)
    case Some(w) => DocAvoids(prefix + w + suffix, c);
    case None =>
  }

  lemma StructSetterDocAvoids(typeName: string, c: char)
    requires c != '#'
    ensures Avoids(StructSetterDoc(typeName), c)
  {
    DocAvoids("Sets the " + typeName + " value.", c);
    var note := CoercionNote(typeName);
    assert note[0][0] == '#' && note[1][0] == '#' && note[2][0] == '#' && note[3][0] == '#';
    AvoidsAppend(Doc("Sets the " + typeName + " value."), note, c);
  }

  /** The first characters of the writers' lines. */
  lemma WriterInitials(p: string, className: string)
    ensures forall c :: c !in "d@e" ==> Avoids(PlainWriter(p, "value"), c) && Avoids(PlainWriter(p, "list"), c)
    ensures forall c :: c !in "dioe@" ==> Avoids(StructWriter(p, className), c)
    ensures forall c :: c !in "dile@" ==> Avoids(ListStructWriter(p, className), c)
  {
    assert Def(Writer(p, "value"))[0] == 'd' && Def(Writer(p, "list"))[0] == 'd';
    assert Def(Writer(p, "object"))[0] == 'd';
    assert Store(p, "value")[0] == '@' && Store(p, "list")[0] == '@' && Store(p, "object")[0] == '@';
    assert If("object.is_a?(Hash)")[0] == 'i' && ("object = " + New(className, "object"))[0] == 'o';
    assert If("list.class == Array")[0] == 'i' && If("value.is_a?(Hash)")[0] == 'i';
    assert ("list[index] = " + New(className, "value"))[0] == 'l';
  }

  lemma ListSetterAvoids(naming: Naming, p: string, e: Type, c: char)
    requires c !in "#d@e"
    requires e.StructRef? ==> c != 'i' && c != 'l'
    ensures Avoids(ListSetter(naming, p, e), c)
  {
    WriterInitials(p, naming.className(e));
    match e {
      case Primitive(k) =>
        PrimitiveDocAvoids(k, "Sets the ", " values.", c);
        AvoidsAppend(PrimitiveDoc(k, "Sets the ", " values."), PlainWriter(p, "list"), c);
      case EnumRef(_) =>
        DocAvoids("Sets the " + naming.typeName(e) + " values.", c);
        AvoidsAppend(Doc("Sets the " + naming.typeName(e) + " values."), PlainWriter(p, "list"), c);
      case StructRef(_) =>
        DocAvoids("Sets the values from a list or array of objects of type " + naming.typeName(e) + ".", c);
        AvoidsAppend(Doc("Sets the values from a list or array of objects of type " + naming.typeName(e) + "."),
          ListStructWriter(p, naming.className(e)), c);
      case ListOf(_) =>
    }
  }

  /**
   * The first characters a setter's lines can start with: `#` for the comment, `d`, `@` and
   * `e` for every writer, `a` for an enum's writer, `i` and `o` for a struct's coercion and
   * `i` and `l` for the coercion loop of a list of structs.
   */
  lemma SetterAvoids(naming: Naming, p: string, t: Type, c: char)
    requires c !in "#d@e"
    requires t.EnumRef? ==> c != 'a'
    requires t.StructRef? ==> c != 'i' && c != 'o'
    requires t.ListOf? && t.element.StructRef? ==> c != 'i' && c != 'l'
    ensures Avoids(Setter(naming, p, t) + [""], c)
  {
    match t {
      case Primitive(k) => PrimitiveSetterAvoids(p, k, c);
      case EnumRef(_) => EnumSetterAvoids(naming.typeName(t), p, c);
      case StructRef(_) => StructSetterAvoids(naming.typeName(t), naming.className(t), p, c);
      case ListOf(e) => ListSetterAvoids(naming, p, e, c);
    }
    AvoidsAppend(Setter(naming, p, t), [""], c);
  }

  lemma PrimitiveSetterAvoids(p: string, k: PrimitiveKind, c: char)
    requires c !in "#d@e"
    ensures Avoids(PrimitiveDoc(k, "Sets the ", " value.") + PlainWriter(p, "value"), c)
  {
    WriterInitials(p, "");
    PrimitiveDocAvoids(k, "Sets the ", " value.", c);
    AvoidsAppend(PrimitiveDoc(k, "Sets the ", " value."), PlainWriter(p, "value"), c);
  }

  lemma EnumSetterAvoids(typeName: string, p: string, c: char)
    requires c !in "#a"
    ensures Avoids(Doc("Sets the " + typeName + " value.") + ["attr_writer :" + p], c)
  {
    DocAvoids("Sets the " + typeName + " value.", c);
    assert ("attr_writer :" + p)[0] == 'a';
    AvoidsAppend(Doc("Sets the " + typeName + " value."), ["attr_writer :" + p], c);
  }

  lemma StructSetterAvoids(typeName: string, className: string, p: string, c: char)
    requires c !in "#d@eio"
    ensures Avoids(StructSetterDoc(typeName) + StructWriter(p, className), c)
  {
    WriterInitials(p, className);
    StructSetterDocAvoids(typeName, c);
    AvoidsAppend(StructSetterDoc(typeName), StructWriter(p, className), c);
  }

  /** An enum-valued property gets an attribute writer, and only an enum-valued one. */
  lemma SetterAttrWriter(naming: Naming, m: Member)
    ensures ("attr_writer :" + naming.memberStyleName(m.name)) in SetterLines(naming, m)
      <==> m.memberType.EnumRef?
  {
    var p := naming.memberStyleName(m.name);
    var marker := "attr_writer :" + p;
    if m.memberType.EnumRef? {
      var doc := Doc("Sets the " + naming.typeName(m.memberType) + " value.");
      assert SetterLines(naming, m)[|doc|] == marker;
    } else {
      assert marker[0] == 'a';
      SetterAvoids(naming, p, m.memberType, 'a');
      AvoidsNotIn(SetterLines(naming, m), marker);
    }
  }

  /** The writer of a list of structs tests its elements, not the list, for being a hash. */
  lemma ListStructWriterNoHash(p: string, className: string)
    ensures If("object.is_a?(Hash)") !in ListStructWriter(p, className)
  {
    var marker := If("object.is_a?(Hash)");
    var store := "list[index] = " + New(className, "value");
    assert |marker| == 21 && |If("list.class == Array")| == 22 && |If("value.is_a?(Hash)")| == 20;
    assert |"list = List.new(list)"| == 21 && marker[0] != 'l';
    assert |"list.each_with_index do |value, index|"| > 21 && |store| > 21;
    var writer := ListStructWriter(p, className);
    assert writer == [Def(Writer(p, "list")), If("list.class == Array"), "list = List.new(list)",
      "list.each_with_index do |value, index|", If("value.is_a?(Hash)"), store, "end", "end", "end",
      Store(p, "list"), "end"];
    assert Def(Writer(p, "list"))[0] == 'd' && Store(p, "list")[0] == '@';
  }

  /** A struct-valued property's writer turns a hash into an instance, and no other writer does. */
  lemma SetterHashCoercion(naming: Naming, m: Member)
    ensures If("object.is_a?(Hash)") in SetterLines(naming, m) <==> m.memberType.StructRef?
  {
    var t := m.memberType;
    if t.StructRef? {
      StructSetterHashes(naming, m);
    } else if t.ListOf? && t.element.StructRef? {
      ListStructSetterNoHash(naming, m);
    } else {
      var marker := If("object.is_a?(Hash)");
      assert marker[0] == 'i';
      SetterAvoids(naming, naming.memberStyleName(m.name), t, 'i');
      AvoidsNotIn(SetterLines(naming, m), marker);
    }
  }

  lemma StructSetterHashes(naming: Naming, m: Member)
    requires m.memberType.StructRef?
    ensures If("object.is_a?(Hash)") in SetterLines(naming, m)
  {
    var doc := StructSetterDoc(naming.typeName(m.memberType));
    assert SetterLines(naming, m)[|doc| + 1] == If("object.is_a?(Hash)");
  }

  lemma ListStructSetterNoHash(naming: Naming, m: Member)
    requires m.memberType.ListOf? && m.memberType.element.StructRef?
    ensures If("object.is_a?(Hash)") !in SetterLines(naming, m)
  {
    var p := naming.memberStyleName(m.name);
    var e := m.memberType.element;
    var text := "Sets the values from a list or array of objects of type " + naming.typeName(e) + ".";
    var writer := ListStructWriter(p, naming.className(e));
    ListStructWriterNoHash(p, naming.className(e));
    DocAvoids(text, 'i');
    assert If("object.is_a?(Hash)")[0] == 'i';
    AvoidsNotIn(Doc(text), If("object.is_a?(Hash)"));
    assert SetterLines(naming, m) == Doc(text) + writer + [""];
  }

  /** A list of structs is wrapped in a List, and no other property's writer does that. */
  lemma SetterListWrap(naming: Naming, m: Member)
    ensures "list = List.new(list)" in SetterLines(naming, m)
      <==> m.memberType.ListOf? && m.memberType.element.StructRef?
  {
    var p := naming.memberStyleName(m.name);
    var t := m.memberType;
    var marker := "list = List.new(list)";
    if t.ListOf? && t.element.StructRef? {
      var doc := Doc("Sets the values from a list or array of objects of type " + naming.typeName(t.element) + ".");
      assert SetterLines(naming, m)[|doc| + 2] == marker;
    } else {
      assert marker[0] == 'l';
      SetterAvoids(naming, p, t, 'l');
      AvoidsNotIn(SetterLines(naming, m), marker);
    }
  }

  /** Every getter ends with `def p`, `return @p`, `end` and an empty line, after its comment. */
  lemma GetterShape(naming: Naming, m: Member)
    ensures var r := GetterLines(naming, m); var p := naming.memberStyleName(m.name);
      && |r| >= 4
      && r[|r| - 4..] == [Def(p), "return @" + p, "end", ""]
      && (forall i :: 0 <= i < |r| - 4 ==> r[i] != [] && r[i][0] == '#')
      && (|r| == 4 <==> m.memberType == Primitive(OtherKind))
  {
    var p := naming.memberStyleName(m.name);
    var doc := GetterDoc(naming, m.memberType);
    var r := GetterLines(naming, m);
    assert r == doc + [Def(p), "return @" + p, "end", ""];
    assert |doc| == 0 <==> m.memberType == Primitive(OtherKind);
    if doc != [] {
      assert |doc| == 3 && doc[0] == "##" && doc[1][0] == '#' && doc[2] == "#";
    }
  }

  /** The lines of a constructor, by position. */
  lemma ConstructorLayout(naming: Naming, s: StructDecl)
    ensures var r := ConstructorLines(naming, s); var names := ConstructorNames(naming, s);
      && |r| == |names| + 4
      && r[0] == Def("initialize(opts = {})") && r[1] == "super(opts)"
      && (forall i :: 0 <= i < |names| ==> r[i + 2] == Assignment(names[i]))
      && r[|r| - 2] == "end" && r[|r| - 1] == ""
  {
    var names := ConstructorNames(naming, s);
    var body := ["super(opts)"] + Assignments(names);
    var r := ConstructorLines(naming, s);
    assert r == [Def("initialize(opts = {})")] + body + ["end"] + [""];
    forall i | 0 <= i < |names| ensures r[i + 2] == Assignment(names[i]) {
      assert r[i + 2] == body[i + 1];
    }
  }

  /**
   * The constructor calls the base constructor first, then assigns one option
   * per declared attribute or link, sorted by property name, then ends.
   */
  lemma ConstructorShape(naming: Naming, s: StructDecl)
    ensures var r := ConstructorLines(naming, s); var names := ConstructorNames(naming, s);
      && |names| == |s.attributes| + |s.links|
      && |r| == |names| + 4
      && r[0] == Def("initialize(opts = {})") && r[1] == "super(opts)"
      && (forall i :: 0 <= i < |names| ==> r[i + 2] == Assignment(names[i]))
      && r[|r| - 2] == "end" && r[|r| - 1] == ""
      && SortedBy(names, Self)
      && multiset(names) == multiset(MemberStyles(naming, s.attributes + s.links))
      && (forall m :: m in s.attributes + s.links ==> Assignment(naming.memberStyleName(m.name)) in r)
  {
    ConstructorLayout(naming, s);
    SortByLength(MemberStyles(naming, s.attributes + s.links), Self);
    forall m | m in s.attributes + s.links
      ensures Assignment(naming.memberStyleName(m.name)) in ConstructorLines(naming, s)
    {
      ConstructorAssigns(naming, s, m);
    }
  }

  lemma ConstructorAssigns(naming: Naming, s: StructDecl, m: Member)
    requires m in s.attributes + s.links
    ensures Assignment(naming.memberStyleName(m.name)) in ConstructorLines(naming, s)
  {
    var members := s.attributes + s.links;
    var styles := MemberStyles(naming, members);
    var names := ConstructorNames(naming, s);
    var j :| 0 <= j < |members| && members[j] == m;
    var x := styles[j];
    assert x in multiset(styles);
    assert x in multiset(names);
    var i :| 0 <= i < |names| && names[i] == x;
    ConstructorLayout(naming, s);
    assert ConstructorLines(naming, s)[i + 2] == Assignment(x);
  }

  /** The lines of the first i + 1 elements: those of the first i, then the i-th element's. */
  lemma FlattenStep<T>(xs: seq<T>, lines: T -> seq<string>, i: nat)
    requires i < |xs|
    ensures Flatten(xs[..i + 1], lines) == Flatten(xs[..i], lines) + lines(xs[i])
  {
    var prefix := xs[..i + 1];
    assert prefix[..i] == xs[..i] && prefix[i] == xs[i];
  }

  lemma PrefixAppend(a: seq<string>, b: seq<string>, c: seq<string>)
    requires |a| <= |b| && b[..|a|] == a
    ensures |a| <= |b + c| && (b + c)[..|a|] == a
  {
    assert (b + c)[..|a|] == b[..|a|];
  }

  /** The lines of a prefix of the elements are a prefix of the lines of all of them. */
  lemma {:induction false} FlattenPrefix<T>(xs: seq<T>, lines: T -> seq<string>, j: nat)
    requires j <= |xs|
    ensures var before := Flatten(xs[..j], lines);
      |before| <= |Flatten(xs, lines)| && Flatten(xs, lines)[..|before|] == before
    decreases |xs| - j
  {
    if j < |xs| {
      var init := xs[..|xs| - 1];
      FlattenPrefix(init, lines, j);
      assert init[..j] == xs[..j];
      PrefixAppend(Flatten(xs[..j], lines), Flatten(init, lines), lines(xs[|xs| - 1]));
    } else {
      assert xs[..j] == xs;
    }
  }

  lemma SliceOfPrefix(all: seq<string>, front: seq<string>, body: seq<string>)
    requires |front + body| <= |all| && all[..|front + body|] == front + body
    ensures |front| + |body| <= |all| && all[|front|..|front| + |body|] == body
  {
    assert all[|front|..|front| + |body|] == (front + body)[|front|..];
  }

  /** The i-th element's lines sit right after those of the elements before it. */
  lemma FlattenSlice<T>(xs: seq<T>, lines: T -> seq<string>, i: nat)
    requires i < |xs|
    ensures var start := |Flatten(xs[..i], lines)|;
      && start + |lines(xs[i])| <= |Flatten(xs, lines)|
      && Flatten(xs, lines)[start..start + |lines(xs[i])|] == lines(xs[i])
  {
    FlattenStep(xs, lines, i);
    FlattenPrefix(xs, lines, i + 1);
    SliceOfPrefix(Flatten(xs, lines), Flatten(xs[..i], lines), lines(xs[i]));
  }

  /** When every element has `n` lines, the first i elements have n * i of them. */
  lemma {:induction false} FlattenLength<T>(xs: seq<T>, lines: T -> seq<string>, n: nat)
    requires forall i :: 0 <= i < |xs| ==> |lines(xs[i])| == n
    ensures |Flatten(xs, lines)| == n * |xs|
    decreases |xs|
  {
    if xs != [] {
      var init := xs[..|xs| - 1];
      FlattenLength(init, lines, n);
      assert n * |init| + n == n * |xs| by {
        assert |xs| == |init| + 1;
      }
    }
  }

  // One more element of each loop of the generator: the steps its loop invariants take.

  lemma MembersStep(naming: Naming, ms: seq<Member>, i: nat)
    requires i < |ms|
    ensures MembersLines(naming, ms[..i + 1]) == MembersLines(naming, ms[..i]) + MemberLines(naming, ms[i])
  {
    FlattenStep(ms, m => MemberLines(naming, m), i);
  }

  lemma ForwardStep(naming: Naming, ss: seq<StructDecl>, i: nat)
    requires i < |ss|
    ensures ForwardLines(naming, ss[..i + 1]) == ForwardLines(naming, ss[..i]) + Forward(naming, ss[i])
  {
    FlattenStep(ss, s => Forward(naming, s), i);
  }

  lemma BodyStep(naming: Naming, ss: seq<StructDecl>, i: nat)
    requires i < |ss|
    ensures BodyLines(naming, ss[..i + 1]) == BodyLines(naming, ss[..i]) + TypeLines(naming, StructType(ss[i]))
  {
    FlattenStep(ss, s => TypeLines(naming, StructType(s)), i);
  }

  lemma AssignmentsStep(xs: seq<string>, i: nat)
    requires i < |xs|
    ensures Assignments(xs[..i + 1]) == Assignments(xs[..i]) + [Assignment(xs[i])]
  {
    assert Assignments(xs[..i + 1]) == Assignments(xs[..i]) + [Assignment(xs[i])];
  }

  lemma EnumValuesStep(naming: Naming, vs: seq<Name>, i: nat)
    requires i < |vs|
    ensures EnumValueLines(naming, vs[..i + 1]) == EnumValueLines(naming, vs[..i]) + [EnumValueLine(naming, vs[i])]
  {
    assert EnumValueLines(naming, vs[..i + 1]) == EnumValueLines(naming, vs[..i]) + [EnumValueLine(naming, vs[i])];
  }

  /** The forward declarations come in threes: the class line, `end`, an empty line, in the given order. */
  lemma ForwardShape(naming: Naming, ss: seq<StructDecl>)
    ensures var f := ForwardLines(naming, ss);
      && |f| == 3 * |ss|
      && forall i :: 0 <= i < |ss| ==> f[3 * i] == ClassDecl(naming, ss[i]) && f[3 * i + 1] == "end" && f[3 * i + 2] == ""
  {
    FlattenLength(ss, s => Forward(naming, s), 3);
    forall i | 0 <= i < |ss|
      ensures var f := ForwardLines(naming, ss);
        f[3 * i] == ClassDecl(naming, ss[i]) && f[3 * i + 1] == "end" && f[3 * i + 2] == ""
    {
      ForwardAt(naming, ss, i);
    }
  }

  /** The i-th forward declaration, where the first i end. */
  lemma ForwardAt(naming: Naming, ss: seq<StructDecl>, i: nat)
    requires i < |ss|
    ensures var f := ForwardLines(naming, ss);
      && 3 * i + 3 <= |f|
      && f[3 * i] == ClassDecl(naming, ss[i]) && f[3 * i + 1] == "end" && f[3 * i + 2] == ""
  {
    FlattenSlice(ss, s => Forward(naming, s), i);
    ForwardPrefixLength(naming, ss, i);
    var f := ForwardLines(naming, ss);
    var piece := f[3 * i..3 * i + 3];
    assert piece == [ClassDecl(naming, ss[i]), "end", ""];
    assert f[3 * i] == piece[0] && f[3 * i + 1] == piece[1] && f[3 * i + 2] == piece[2];
  }

  lemma ForwardPrefixLength(naming: Naming, ss: seq<StructDecl>, i: nat)
    requires i <= |ss|
    ensures |ForwardLines(naming, ss[..i])| == 3 * i
  {
    FlattenLength(ss[..i], s => Forward(naming, s), 3);
  }

  /** A struct's declaration opens with its class line. */
  lemma StructOpens(naming: Naming, s: StructDecl)
    ensures StructLines(naming, s) != [] && StructLines(naming, s)[0] == ClassDecl(naming, s)
  {
  }

  /**
   * The i-th complete declaration starts where those of the first i structs
   * end, with the class line the i-th forward declaration has: both lists
   * follow one order.
   */
  lemma BodiesInOrder(naming: Naming, ss: seq<StructDecl>, i: nat)
    requires i < |ss|
    ensures var start := |BodyLines(naming, ss[..i])|;
      && start < |BodyLines(naming, ss)|
      && BodyLines(naming, ss)[start] == ClassDecl(naming, ss[i])
      && |ForwardLines(naming, ss)| == 3 * |ss|
      && ForwardLines(naming, ss)[3 * i] == ClassDecl(naming, ss[i])
  {
    var lines := s => TypeLines(naming, StructType(s));
    FlattenSlice(ss, lines, i);
    StructOpens(naming, ss[i]);
    var start := |BodyLines(naming, ss[..i])|;
    assert BodyLines(naming, ss)[start] == lines(ss[i])[0];
    ForwardShape(naming, ss);
  }

  /** Where the three parts of `a + b + c` sit. */
  lemma ThreeParts(a: seq<string>, b: seq<string>, c: seq<string>)
    ensures (a + b + c)[..|a|] == a && (a + b + c)[|a| + |b|..] == c
    ensures forall i :: 0 <= i < |b| ==> (a + b + c)[|a| + i] == b[i]
  {
    assert (a + b + c)[..|a|] == a;
    assert (a + b + c)[|a| + |b|..] == c;
  }

  /** The lines of an enum, by position. */
  lemma EnumLayout(naming: Naming, e: EnumDecl)
    ensures var components := JavaText.Split(naming.className(EnumRef(e.name)));
      var k := |components|;
      var values := SortBy(e.values, Self);
      var r := EnumLines(naming, e);
      && |r| == 2 * k + |values|
      && r[..k] == ModuleLines(components)
      && (forall i :: 0 <= i < |values| ==> r[k + i] == EnumValueLine(naming, values[i]))
      && r[k + |values|..] == EndLines(k)
  {
    var components := JavaText.Split(naming.className(EnumRef(e.name)));
    ThreeParts(ModuleLines(components), EnumValueLines(naming, SortBy(e.values, Self)), EndLines(|components|));
  }

  /**
   * An enum is a module named after it, holding one constant per value in
   * name order, closed by one `end` per name component.
   */
  lemma EnumShape(naming: Naming, e: EnumDecl)
    ensures var components := JavaText.Split(naming.className(EnumRef(e.name)));
      var k := |components|;
      var values := SortBy(e.values, Self);
      var r := EnumLines(naming, e);
      && |r| == 2 * k + |e.values|
      && r[..k] == ModuleLines(components)
      && (forall i :: 0 <= i < |values| ==> r[k + i] == EnumValueLine(naming, values[i]))
      && r[k + |values|..] == EndLines(k)
      && SortedBy(values, Self)
      && (forall v :: v in e.values ==> EnumValueLine(naming, v) in r)
  {
    EnumLayout(naming, e);
    var k := |JavaText.Split(naming.className(EnumRef(e.name)))|;
    var values := SortBy(e.values, Self);
    SortByLength(e.values, Self);
    forall v | v in e.values ensures EnumValueLine(naming, v) in EnumLines(naming, e) {
      EnumValueListed(naming, e, v);
    }
  }

  lemma EnumValueListed(naming: Naming, e: EnumDecl, v: Name)
    requires v in e.values
    ensures EnumValueLine(naming, v) in EnumLines(naming, e)
  {
    var values := SortBy(e.values, Self);
    SortByLength(e.values, Self);
    assert v in multiset(values);
    var i :| 0 <= i < |values| && values[i] == v;
    EnumLayout(naming, e);
  }
}
