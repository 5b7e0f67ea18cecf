# Ruby types generator of the oVirt SDK generator, modelled in Dafny

This project models the part of the oVirt SDK generator that writes the Ruby
file `types.rb`. That file holds one Ruby class per struct type of the API
model.

The model has two parts:

- **`RubyBuffer`** collects generated Ruby lines and indents them.
  - `addLine` looks at the text of each line. A line that closes a block
    (`)`, `]`, `else`, `end`, `ensure`, `when …`) lowers the level first, but
    never below zero. The line is then stored with two spaces per level. A line
    that opens a block (ends in `(`, `[` or `|`; is `begin`, `else` or
    `ensure`; starts with `case `, `class `, `def `, `if `, `loop `, `module `,
    `unless `, `when ` or `while `) raises the level for the lines after it.
  - `beginModule` and `endModule` split a name on `::`. They write one
    `module <c>` or `end` line per component and push or pop one stack entry
    for each.
  - `toString` writes a fixed license header, the sorted `require` lines, a
    blank line and the stored lines.
  - `write` derives the output path from the file name.
- **`TypesGenerator`** drives the buffer over a model of the API types.
  - It sorts the structs by name, then reorders them with a queue: a struct is
    accepted once its base has been accepted, and otherwise goes back to the
    end of the queue.
  - It writes a forward declaration `class X < Base` / `end` for each struct,
    then each struct's full declaration in the same order. A full declaration
    holds a getter and a setter per attribute and link, and a constructor.
  - The template for each getter and setter depends on the member's type:
    primitive, enum, struct, or list of those.

## How the model is built

Files and modules:

- `text.dfy` (`Text`): string prefix and suffix tests, Java's lexicographic
  `String.compareTo`, and a sort by key that `Collections.sort` and
  `Stream.sorted` stand for.
- `java_text.dfy` (`JavaText`): `String.split("::")` with Java's rule that drops
  trailing empty strings, `String.replace(char, char)`, and the part of
  `java.util.Formatter` these two classes use (`%s`, `%n$s`, `%%`).
- `metamodel.dfy` (`Metamodel`): the types of a model (primitive, enum, struct
  with an optional base, list), struct members, and the naming service
  (`RubyNames`). The naming service is a record of function values. Its
  conversions are arbitrary, except that `ValidNaming` constrains the
  resulting identifiers where indentation depends on them.
- `ruby_buffer.dfy` (`RubyText`):
  - the indentation rules as functions: `IsBegin`, `IsEnd`, `Step` and
    `Feed`;
  - `Walk` and `Balanced`, which count the blocks a list of lines opens and
    closes;
  - the class `RubyBuffer`.
- `templates.dfy` (`Templates`): the lines each `generate*` method writes, as
  functions of the model, and the lemmas about them.
- `type_order.dfy` (`TypeOrder`): the ordering queue, as a function `Drain`
  and as the method `OrderStructs` with the source's `while` loop.
- `types_generator.dfy` (`TypesGeneration`): the class `TypesGenerator`, with
  one method per `generate*` method, each appending to the shared buffer.

`RubyBuffer` has a ghost field `history`: every line passed to `addLine`, in
order, before indentation. Its invariant `Valid()` says that the stored
`lines` and `level` are exactly what feeding `history` through the
indentation rules gives. Every generator method states the lines it appends
to `history` as a template function. The lemmas about those functions then
give the indentation facts: each template is balanced, so it leaves the level
where it was.

## Model

| member | source | states |
|---|---|---|
| RubyText.Indent | generator/src/main/java/org/ovirt/sdk/ruby/RubyBuffer.java:129-132 | the indentation for a level is exactly two spaces per level |
| RubyText.LevelChange | generator/src/main/java/org/ovirt/sdk/ruby/RubyBuffer.java:96-140 | an opener-only line raises the level by one; a closer-only line lowers it by one, floored at 0; a line in both sets (`else`, `ensure`, `when …`) keeps a positive level and raises 0 to 1; any other line keeps the level |
| RubyText.NeutralShape | generator/src/main/java/org/ovirt/sdk/ruby/RubyBuffer.java:96-119 | a line whose first character cannot start a keyword or a closer, and whose last character is not `(`, `[` or `\|`, is neither an opener nor a closer |
| RubyText.EmptyLineNeutral | generator/src/main/java/org/ovirt/sdk/ruby/RubyBuffer.java:146-148 | the empty line is neither an opener nor a closer, so `addLine()` keeps the level |
| RubyText.Step | generator/src/main/java/org/ovirt/sdk/ruby/RubyBuffer.java:122-140 | one `addLine` never makes the level negative |
| RubyText.FeedAppend | generator/src/main/java/org/ovirt/sdk/ruby/RubyBuffer.java:94-141 | adding the lines `a + b` leaves the buffer as adding `a` and then `b` does |
| RubyText.FeedKeepsLines | generator/src/main/java/org/ovirt/sdk/ruby/RubyBuffer.java:135 | adding n lines stores exactly n more lines and leaves every earlier stored line unchanged |
| RubyText.WalkAppend | generator/src/main/java/org/ovirt/sdk/ruby/RubyBuffer.java:96-140 | counting open blocks over `a + b` is counting over `a`, then over `b` from where `a` left off |
| RubyText.BalancedAppend | generator/src/main/java/org/ovirt/sdk/ruby/RubyBuffer.java:96-140 | two balanced lists of lines form a balanced list |
| RubyText.BalancedBlock | generator/src/main/java/org/ovirt/sdk/ruby/RubyBuffer.java:96-140 | an opener-only header, a balanced body and `end` form a balanced list |
| RubyText.FeedFollowsWalk | generator/src/main/java/org/ovirt/sdk/ruby/RubyBuffer.java:122-140 | when no closer meets level 0, the level after a list of lines is the level before, plus the blocks opened and minus the blocks closed |
| RubyText.BalancedKeepsLevel | generator/src/main/java/org/ovirt/sdk/ruby/RubyBuffer.java:122-140 | adding a balanced list of lines at any level leaves the level as it was |
| RubyText.AppendBalanced | generator/src/main/java/org/ovirt/sdk/ruby/RubyBuffer.java:122-140 | whatever was added before, adding a balanced list afterwards leaves the level as it was |
| RubyText.ModuleLinesOpen | generator/src/main/java/org/ovirt/sdk/ruby/RubyBuffer.java:73-78 | the k `module` lines of a k-component name open k blocks |
| RubyText.EndLinesClose | generator/src/main/java/org/ovirt/sdk/ruby/RubyBuffer.java:84-89 | n `end` lines close n open blocks |
| RubyText.ModuleBalanced | generator/src/main/java/org/ovirt/sdk/ruby/RubyBuffer.java:73-89 | the `module` lines of a name followed by as many `end` lines form a balanced list |
| RubyText.FeedEndLines | generator/src/main/java/org/ovirt/sdk/ruby/RubyBuffer.java:84-89 | n `end` lines lower the level by n, or to 0 when it was below n |
| RubyText.HistoryRoundTrip | generator/src/main/java/org/ovirt/sdk/ruby/RubyBuffer.java:73-89 | whatever came before, beginning and then ending a module leaves the level as it was |
| RubyText.IndentLine | generator/src/main/java/org/ovirt/sdk/ruby/RubyBuffer.java:96-140 | the stored text is two spaces per level (the level after the closer adjustment) followed by the line; the new level is the one the indentation rules give |
| RubyText.RenderRequires | generator/src/main/java/org/ovirt/sdk/ruby/RubyBuffer.java:189-193 | the loop writes one `require '<r>'` line per entry, in list order |
| RubyText.RenderBody | generator/src/main/java/org/ovirt/sdk/ruby/RubyBuffer.java:197-200 | the loop writes every stored line followed by a newline, in order |
| RubyText.BodyTextAppend | generator/src/main/java/org/ovirt/sdk/ruby/RubyBuffer.java:197-200 | the text of `a + b` is the text of `a` followed by the text of `b` |
| RubyText.RequiresRenderSorted | generator/src/main/java/org/ovirt/sdk/ruby/RubyBuffer.java:186-193 | for every set of requires, whatever order and however often they were added, the file writes one `require` line per name, in strictly ascending order: the same text as any strictly ascending listing of the names, which has exactly one entry per name |
| RubyText.OutputPath | generator/src/main/java/org/ovirt/sdk/ruby/RubyBuffer.java:214 | the path is as long as the file name plus three and ends in `.rb` |
| RubyText.OutputPathChars | generator/src/main/java/org/ovirt/sdk/ruby/RubyBuffer.java:214 | each `/` of the file name becomes the separator and every other character is kept; no `/` is left in the name part unless `/` is the separator |
| RubyText.RubyBuffer.constructor | generator/src/main/java/org/ovirt/sdk/ruby/RubyBuffer.java:47-60 | a new buffer has no requires, no modules, no lines and level 0 |
| RubyText.RubyBuffer.SetFileName | generator/src/main/java/org/ovirt/sdk/ruby/RubyBuffer.java:65-67 | the file name becomes the given one and nothing else changes |
| RubyText.RubyBuffer.AddLine | generator/src/main/java/org/ovirt/sdk/ruby/RubyBuffer.java:94-141 | the buffer moves by one step of the indentation rules and the line joins the history; file name, requires and module stack are unchanged |
| RubyText.RubyBuffer.AddEmptyLine | generator/src/main/java/org/ovirt/sdk/ruby/RubyBuffer.java:146-148 | exactly one line, the current indentation alone, is stored, and the level is unchanged |
| RubyText.RubyBuffer.AddFormattedLine | generator/src/main/java/org/ovirt/sdk/ruby/RubyBuffer.java:154-160 | a format that succeeds adds its formatted text as one line; a format that fails (a missing argument, an unsupported conversion) changes nothing |
| RubyText.RubyBuffer.BeginModule | generator/src/main/java/org/ovirt/sdk/ruby/RubyBuffer.java:73-78 | for a name of k `::` components: k `module <c>` lines in order, the components pushed so the last is on top, the level raised by k |
| RubyText.RubyBuffer.PushModule | generator/src/main/java/org/ovirt/sdk/ruby/RubyBuffer.java:75-76 | one component is pushed and its `module` line written, raising the level by one |
| RubyText.RubyBuffer.OpenModules | generator/src/main/java/org/ovirt/sdk/ruby/RubyBuffer.java:74-77 | the loop over the components writes their `module` lines and pushes them in order |
| RubyText.RubyBuffer.EndModule | generator/src/main/java/org/ovirt/sdk/ruby/RubyBuffer.java:84-89 | with at least k entries on the stack: k `end` lines and k entries popped; otherwise the pop of the empty stack fails after the stack's size in `end` lines plus one more |
| RubyText.RubyBuffer.PopModule | generator/src/main/java/org/ovirt/sdk/ruby/RubyBuffer.java:86-87 | one `end` line is written, then the top entry is popped; it fails exactly when the stack was empty |
| RubyText.RubyBuffer.SortedRequires | generator/src/main/java/org/ovirt/sdk/ruby/RubyBuffer.java:187-188 | the list holds each require exactly once, in strictly ascending order |
| RubyText.RubyBuffer.ToString | generator/src/main/java/org/ovirt/sdk/ruby/RubyBuffer.java:165-203 | the text is the license header, one `require` line per distinct require in ascending order, a blank line, then every stored line with its newline, in insertion order |
| RubyText.ModuleRoundTrip | generator/src/main/java/org/ovirt/sdk/ruby/RubyBuffer.java:73-89 | `beginModule(n)` then `endModule(n)` writes k `module` lines, then k `end` lines, and restores the module stack and the level |
| JavaText.JoinPieces | generator/src/main/java/org/ovirt/sdk/ruby/RubyBuffer.java:74 | joining the pieces of a split with `::` gives back the text |
| JavaText.DropTrailingEmpty | generator/src/main/java/org/ovirt/sdk/ruby/RubyBuffer.java:74 | the split result is a prefix of the pieces that ends before trailing empty pieces only, and does not itself end in an empty piece |
| JavaText.SplitJoin | generator/src/main/java/org/ovirt/sdk/ruby/RubyBuffer.java:74 | for a name that does not end in `:`, joining its `::` components gives back the name |
| JavaText.SplitPieces | generator/src/main/java/org/ovirt/sdk/ruby/RubyBuffer.java:74 | the `::` components contain no `::`, and every component but the last ends in a character other than `:`, so each cut is at the leftmost match |
| JavaText.Replace | generator/src/main/java/org/ovirt/sdk/ruby/RubyBuffer.java:214 | every occurrence of one character is replaced by the other and every other character is kept |
| JavaText.ReplaceBack | generator/src/main/java/org/ovirt/sdk/ruby/RubyBuffer.java:214 | when the new character did not occur, replacing back restores the text |
| JavaText.FormatLiteral | generator/src/main/java/org/ovirt/sdk/ruby/RubyBuffer.java:154-160 | text without `%` is copied as it is |
| JavaText.FormatOneIndexed | generator/src/main/java/org/ovirt/sdk/ruby/RubyBuffer.java:154-160 | `%1$s` between plain texts is replaced by the first argument |
| JavaText.FormatTwoOrdinary | generator/src/main/java/org/ovirt/sdk/ruby/TypesGenerator.java:346 | two `%s` take the arguments in order |
| JavaText.FormatTwoIndexed | generator/src/main/java/org/ovirt/sdk/ruby/TypesGenerator.java:142 | two indexed conversions take the arguments they name, possibly the same one twice |
| JavaText.FormatMissing | generator/src/main/java/org/ovirt/sdk/ruby/RubyBuffer.java:154-160 | `%1$s` with no arguments fails with a missing argument |
| Text.LessIrreflexive | generator/src/main/java/org/ovirt/sdk/ruby/RubyBuffer.java:188 | no string sorts before itself |
| Text.LessTransitive | generator/src/main/java/org/ovirt/sdk/ruby/RubyBuffer.java:188 | the string order is transitive |
| Text.LessTotal | generator/src/main/java/org/ovirt/sdk/ruby/RubyBuffer.java:188 | of two different strings one sorts before the other |
| Text.InsertBy | generator/src/main/java/org/ovirt/sdk/ruby/RubyBuffer.java:188 | inserting into a sorted list keeps it sorted and adds exactly the one element |
| Text.SortBy | generator/src/main/java/org/ovirt/sdk/ruby/TypesGenerator.java:84-88 | the sort returns the same elements, as a multiset, ordered by key |
| Text.StrictlySortedUnique | generator/src/main/java/org/ovirt/sdk/ruby/RubyBuffer.java:187-188 | two strictly ascending lists with the same elements are equal: the sorted requires are determined by the set |
| Text.InsertStrict | generator/src/main/java/org/ovirt/sdk/ruby/RubyBuffer.java:187-188 | inserting a new string into a strictly ascending list keeps it strictly ascending and adds exactly that string |
| Text.SortedOf | generator/src/main/java/org/ovirt/sdk/ruby/RubyBuffer.java:187-188 | a set as a list: strictly ascending, with exactly the set's elements |
| Metamodel.Structs | generator/src/main/java/org/ovirt/sdk/ruby/TypesGenerator.java:84-86 | the struct types picked out of a model's types are exactly its structs |
| Metamodel.StructsAppendOther | generator/src/main/java/org/ovirt/sdk/ruby/TypesGenerator.java:85 | a type that is not a struct is filtered out |
| Templates.ModuleLineFormat | generator/src/main/java/org/ovirt/sdk/ruby/RubyBuffer.java:76 | the format `module %1$s` gives `module ` followed by the component |
| Templates.GetterFormat | generator/src/main/java/org/ovirt/sdk/ruby/TypesGenerator.java:203 | the format `def %1$s` gives `def ` followed by the property |
| Templates.EnumValueFormat | generator/src/main/java/org/ovirt/sdk/ruby/TypesGenerator.java:343-347 | the format `%s = '%s'` gives `<CONST> = '<member>'` for a value |
| Templates.ClassDeclFormat | generator/src/main/java/org/ovirt/sdk/ruby/TypesGenerator.java:349-354 | the class line is `class <Name> < <BaseName>`, with the root struct class as base name when the struct has no base |
| Templates.AssignmentFormat | generator/src/main/java/org/ovirt/sdk/ruby/TypesGenerator.java:142 | the format `self.%1$s = opts[:%1$s]` uses the property name twice |
| Templates.GetterBalanced | generator/src/main/java/org/ovirt/sdk/ruby/TypesGenerator.java:157-207 | every getter, with its comment, opens and closes its blocks, so it leaves the level as it was |
| Templates.GetterDocBalanced | generator/src/main/java/org/ovirt/sdk/ruby/TypesGenerator.java:161-202 | the getter comment of every type is balanced |
| Templates.ReaderBalanced | generator/src/main/java/org/ovirt/sdk/ruby/TypesGenerator.java:203-205 | `def p`, `return @p`, `end` is balanced |
| Templates.SetterBalanced | generator/src/main/java/org/ovirt/sdk/ruby/TypesGenerator.java:209-329 | every setter, with its comment and trailing empty line, is balanced |
| Templates.PrimitiveSetterBalanced | generator/src/main/java/org/ovirt/sdk/ruby/TypesGenerator.java:213-243 | the primitive setter is balanced |
| Templates.EnumSetterBalanced | generator/src/main/java/org/ovirt/sdk/ruby/TypesGenerator.java:244-250 | the enum setter is balanced when the property is a member-style name |
| Templates.StructSetterBalanced | generator/src/main/java/org/ovirt/sdk/ruby/TypesGenerator.java:251-266 | the struct setter, with its Hash coercion, is balanced |
| Templates.ListOfSetterBalanced | generator/src/main/java/org/ovirt/sdk/ruby/TypesGenerator.java:267-326 | the list setter is balanced |
| Templates.ListSetterBalanced | generator/src/main/java/org/ovirt/sdk/ruby/TypesGenerator.java:267-326 | the list setter is balanced for every element type |
| Templates.StructWriterBalanced | generator/src/main/java/org/ovirt/sdk/ruby/TypesGenerator.java:260-265 | `def p=(object)`, the `if` block and the store are balanced |
| Templates.ListStructWriterBalanced | generator/src/main/java/org/ovirt/sdk/ruby/TypesGenerator.java:315-325 | the list-of-struct writer, with its array guard and element loop, is balanced |
| Templates.ElementLoopBalanced | generator/src/main/java/org/ovirt/sdk/ruby/TypesGenerator.java:318-322 | the `each_with_index do \|value, index\|` loop with its inner `if` is balanced |
| Templates.ConstructorBalanced | generator/src/main/java/org/ovirt/sdk/ruby/TypesGenerator.java:136-145 | the constructor is balanced |
| Templates.MembersBalanced | generator/src/main/java/org/ovirt/sdk/ruby/TypesGenerator.java:132-133 | the getters and setters of any list of members are balanced |
| Templates.StructBalanced | generator/src/main/java/org/ovirt/sdk/ruby/TypesGenerator.java:126-150 | the complete declaration of a struct is balanced |
| Templates.ForwardBalanced | generator/src/main/java/org/ovirt/sdk/ruby/TypesGenerator.java:102-106 | the forward declarations are balanced |
| Templates.BodiesBalanced | generator/src/main/java/org/ovirt/sdk/ruby/TypesGenerator.java:109 | the complete declarations are balanced |
| Templates.EnumBalanced | generator/src/main/java/org/ovirt/sdk/ruby/TypesGenerator.java:331-341 | an enum module with its constants is balanced |
| Templates.PreambleBalanced | generator/src/main/java/org/ovirt/sdk/ruby/TypesGenerator.java:75-77 | the comment at the top of the file is balanced |
| Templates.SourceBalanced | generator/src/main/java/org/ovirt/sdk/ruby/TypesGenerator.java:73-115 | the whole file body is balanced |
| Templates.SetterAttrWriter | generator/src/main/java/org/ovirt/sdk/ruby/TypesGenerator.java:244-250 | the setter contains `attr_writer :p` exactly when the member is an enum |
| Templates.SetterHashCoercion | generator/src/main/java/org/ovirt/sdk/ruby/TypesGenerator.java:251-266 | the setter contains `if object.is_a?(Hash)` exactly when the member is a struct |
| Templates.SetterListWrap | generator/src/main/java/org/ovirt/sdk/ruby/TypesGenerator.java:310-325 | the setter wraps the value with `list = List.new(list)` exactly when the member is a list of structs |
| Templates.SetterAvoids | generator/src/main/java/org/ovirt/sdk/ruby/TypesGenerator.java:209-329 | which line starts each kind of setter may write: no setter writes a line starting with a character outside its own template |
| Templates.GetterShape | generator/src/main/java/org/ovirt/sdk/ruby/TypesGenerator.java:157-207 | a getter ends with `def p`, `return @p`, `end` and an empty line; every line before them is a comment; there is no comment only for an unrecognised primitive type |
| Templates.ConstructorShape | generator/src/main/java/org/ovirt/sdk/ruby/TypesGenerator.java:136-144 | `def initialize(opts = {})`, then `super(opts)`, then one `self.p = opts[:p]` per declared attribute and link, sorted by property name and a permutation of their names, then `end` and an empty line |
| Templates.ConstructorAssigns | generator/src/main/java/org/ovirt/sdk/ruby/TypesGenerator.java:138-143 | every declared attribute and link gets its assignment line |
| Templates.ForwardShape | generator/src/main/java/org/ovirt/sdk/ruby/TypesGenerator.java:102-106 | the forward declarations are, per struct in order, its class line, `end` and an empty line |
| Templates.BodiesInOrder | generator/src/main/java/org/ovirt/sdk/ruby/TypesGenerator.java:102-109 | the i-th complete declaration starts with the class line of the i-th forward declaration: both follow the same order |
| Templates.EnumShape | generator/src/main/java/org/ovirt/sdk/ruby/TypesGenerator.java:331-346 | an enum is the `module` lines of its class name, one constant line for each value in name order, and one `end` per component; every value is listed |
| Templates.EnumValueListed | generator/src/main/java/org/ovirt/sdk/ruby/TypesGenerator.java:337 | each value of the enum gets its constant line |
| TypeOrder.RequeueProgress | generator/src/main/java/org/ovirt/sdk/ruby/TypesGenerator.java:96-98 | re-queueing a struct that cannot be accepted brings the first acceptable struct one place nearer the front: the loop terminates |
| TypeOrder.SomeReady | generator/src/main/java/org/ovirt/sdk/ruby/TypesGenerator.java:90-99 | while the bases are acyclic and within the model, some pending struct can be accepted |
| TypeOrder.StartDrains | generator/src/main/java/org/ovirt/sdk/ruby/TypesGenerator.java:84-90 | a model whose bases are acyclic and within the model gives a queue that empties |
| TypeOrder.DrainPermutation | generator/src/main/java/org/ovirt/sdk/ruby/TypesGenerator.java:90-99 | the structs accepted at the end are those accepted before plus those pending, each once |
| TypeOrder.DrainBasesBefore | generator/src/main/java/org/ovirt/sdk/ruby/TypesGenerator.java:92-94 | a struct is accepted only after a struct of its base's name |
| TypeOrder.DrainRoots | generator/src/main/java/org/ovirt/sdk/ruby/TypesGenerator.java:90-99 | the structs without a base come out in the order they were queued |
| TypeOrder.DrainWithoutBases | generator/src/main/java/org/ovirt/sdk/ruby/TypesGenerator.java:90-99 | when no pending struct has a base, all are accepted in queue order |
| TypeOrder.AncestorsBefore | generator/src/main/java/org/ovirt/sdk/ruby/TypesGenerator.java:92-94 | in an order with bases first and distinct names, every ancestor, however many steps up, comes strictly before |
| TypeOrder.OrderAncestorsBefore | generator/src/main/java/org/ovirt/sdk/ruby/TypesGenerator.java:84-98 | for acyclic structs with distinct names, in the order the generator writes them every ancestor, however many links up, comes strictly before |
| TypeOrder.UniqueByMultiset | generator/src/main/java/org/ovirt/sdk/ruby/TypesGenerator.java:84-98 | reordering the structs keeps their names distinct, so the output order inherits the input's distinct names |
| TypeOrder.OrderPermutation | generator/src/main/java/org/ovirt/sdk/ruby/TypesGenerator.java:84-98 | `sorted` is a permutation of the name-sorted structs and of the model's structs |
| TypeOrder.OrderBasesBefore | generator/src/main/java/org/ovirt/sdk/ruby/TypesGenerator.java:92-94 | every struct with a base comes after a struct of its base's name |
| TypeOrder.OrderRoots | generator/src/main/java/org/ovirt/sdk/ruby/TypesGenerator.java:84-94 | the structs without a base keep their name-sorted order |
| TypeOrder.OrderWithoutBases | generator/src/main/java/org/ovirt/sdk/ruby/TypesGenerator.java:84-94 | with no bases at all, the loop terminates and `sorted` is the name-sorted list |
| TypeOrder.OrderStructs | generator/src/main/java/org/ovirt/sdk/ruby/TypesGenerator.java:84-99 | the queue loop terminates and computes the declaration order |
| TypesGeneration.AddGetterDoc | generator/src/main/java/org/ovirt/sdk/ruby/TypesGenerator.java:161-202 | writes the getter comment the member's type selects |
| TypesGeneration.AddPrimitiveDoc | generator/src/main/java/org/ovirt/sdk/ruby/TypesGenerator.java:213-239 | writes the comment for the boolean, string, Integer, float or DateTime type, and none for another primitive |
| TypesGeneration.AddSetter | generator/src/main/java/org/ovirt/sdk/ruby/TypesGenerator.java:213-327 | writes the setter the member's type selects |
| TypesGeneration.AddPrimitiveSetter | generator/src/main/java/org/ovirt/sdk/ruby/TypesGenerator.java:213-243 | writes the primitive setter |
| TypesGeneration.AddEnumSetter | generator/src/main/java/org/ovirt/sdk/ruby/TypesGenerator.java:244-250 | writes the enum setter |
| TypesGeneration.AddStructSetter | generator/src/main/java/org/ovirt/sdk/ruby/TypesGenerator.java:251-266 | writes the struct setter |
| TypesGeneration.AddListOfSetter | generator/src/main/java/org/ovirt/sdk/ruby/TypesGenerator.java:267-326 | writes the list setter |
| TypesGeneration.AddListSetter | generator/src/main/java/org/ovirt/sdk/ruby/TypesGenerator.java:270-326 | writes the list setter the element type selects |
| TypesGeneration.AddPlainWriter | generator/src/main/java/org/ovirt/sdk/ruby/TypesGenerator.java:240-242 | writes `def p=(arg)`, the store and `end` |
| TypesGeneration.AddStructWriter | generator/src/main/java/org/ovirt/sdk/ruby/TypesGenerator.java:260-265 | writes the struct writer with its Hash coercion |
| TypesGeneration.AddListStructWriter | generator/src/main/java/org/ovirt/sdk/ruby/TypesGenerator.java:315-325 | writes the list-of-struct writer |
| TypesGeneration.AddElementCoercion | generator/src/main/java/org/ovirt/sdk/ruby/TypesGenerator.java:318-322 | writes the element loop that coerces Hash values |
| TypesGeneration.AddStructSetterDoc | generator/src/main/java/org/ovirt/sdk/ruby/TypesGenerator.java:253-259 | writes the struct setter comment |
| TypesGeneration.AddDoc | generator/src/main/java/org/ovirt/sdk/ruby/TypesGenerator.java:164-166 | writes `##`, the comment line and `#` |
| TypesGeneration.OtherTypesIgnored | generator/src/main/java/org/ovirt/sdk/ruby/TypesGenerator.java:84-88 | adding an enum or primitive type to a model changes neither the order nor the file body |
| TypesGeneration.BaseDeclaredFirst | generator/src/main/java/org/ovirt/sdk/ruby/TypesGenerator.java:92-109 | the class line of a struct with a base comes after the forward declaration of a struct of its base's name, and its complete declaration is at the matching place |
| TypesGeneration.TypesGenerator.constructor | generator/src/main/java/org/ovirt/sdk/ruby/TypesGenerator.java:42-49 | a new generator holds the given naming service and no output directory; the Java `buffer` field is unset until `generate` runs, so the model starts with a placeholder buffer that `Generate` replaces by a fresh one |
| TypesGeneration.TypesGenerator.SetOut | generator/src/main/java/org/ovirt/sdk/ruby/TypesGenerator.java:51-53 | the output directory becomes the given one |
| TypesGeneration.TypesGenerator.GenerateGetter | generator/src/main/java/org/ovirt/sdk/ruby/TypesGenerator.java:157-207 | appends the getter lines and, with a valid naming service, leaves the level as it was |
| TypesGeneration.TypesGenerator.GenerateSetter | generator/src/main/java/org/ovirt/sdk/ruby/TypesGenerator.java:209-329 | appends the setter lines and, with a valid naming service, leaves the level as it was |
| TypesGeneration.TypesGenerator.GenerateMember | generator/src/main/java/org/ovirt/sdk/ruby/TypesGenerator.java:152-155 | appends the getter, then the setter, and keeps the level |
| TypesGeneration.TypesGenerator.GenerateMembers | generator/src/main/java/org/ovirt/sdk/ruby/TypesGenerator.java:132-133 | appends the members in order and keeps the level |
| TypesGeneration.TypesGenerator.GenerateClassDeclaration | generator/src/main/java/org/ovirt/sdk/ruby/TypesGenerator.java:349-354 | appends the one class line |
| TypesGeneration.TypesGenerator.GenerateConstructor | generator/src/main/java/org/ovirt/sdk/ruby/TypesGenerator.java:136-145 | the loop over the sorted property names appends the constructor lines |
| TypesGeneration.TypesGenerator.GenerateStruct | generator/src/main/java/org/ovirt/sdk/ruby/TypesGenerator.java:126-150 | appends the complete struct declaration and, with a valid naming service, keeps the level |
| TypesGeneration.TypesGenerator.GenerateEnumValue | generator/src/main/java/org/ovirt/sdk/ruby/TypesGenerator.java:343-347 | appends the one constant line |
| TypesGeneration.TypesGenerator.GenerateEnum | generator/src/main/java/org/ovirt/sdk/ruby/TypesGenerator.java:331-341 | appends the enum module and its constants, restores the module stack and keeps the level |
| TypesGeneration.TypesGenerator.GenerateType | generator/src/main/java/org/ovirt/sdk/ruby/TypesGenerator.java:117-124 | appends a struct or an enum declaration by the kind of the type, and nothing for a primitive type |
| TypesGeneration.TypesGenerator.GenerateForwardDeclarations | generator/src/main/java/org/ovirt/sdk/ruby/TypesGenerator.java:102-106 | the loop appends the forward declarations in the given order |
| TypesGeneration.TypesGenerator.GenerateDeclarations | generator/src/main/java/org/ovirt/sdk/ruby/TypesGenerator.java:109 | the loop appends the complete declarations in the given order |
| TypesGeneration.TypesGenerator.GenerateSource | generator/src/main/java/org/ovirt/sdk/ruby/TypesGenerator.java:73-115 | for acyclic bases: appends the file body in the declaration order, restores the module stack and, with a valid naming service, keeps the level |
| TypesGeneration.TypesGenerator.Generate | generator/src/main/java/org/ovirt/sdk/ruby/TypesGenerator.java:55-71 | a fresh buffer receives the file body; returns the rendered file (header, no requires, the indented body) and the path `<module path>/types.rb` with `/` replaced by the separator; the level ends at 0 |

## Left out

- File I/O: `RubyBuffer.write` creates directories, prints a message and writes UTF-8. The model keeps only the path it computes (`OutputPath`). The directory `out` is a string that `Generate` does not prefix to the path.
- `IOException` wrapping: `generate` turns a failed write into an `IllegalStateException`. This is left out because the model does no I/O.
- `RubyNames`: the naming service is not part of this model. Its conversions are function values. `ValidNaming` assumes member-style names are made of `a-z`, `0-9` and `_`, and constant-style names of `A-Z`, `0-9` and `_`. That assumption is needed only for the level-keeping facts.
- `java.util.Formatter`: only the `%s`, `%n$s` (n from 1 to 9) and `%%` conversions are modelled; any other conversion is reported as unsupported. The generator methods append the concatenated lines directly. `JavaText.FormatOneIndexed` shows that a template with a single `%1$s` formats to that concatenation; `ModuleLineFormat`, `GetterFormat`, `EnumValueFormat`, `ClassDeclFormat` and `AssignmentFormat` in `Templates` show it for the module, getter, enum value, class declaration and assignment formats (the last two repeat or mix arguments). The other formats are not stated lemma by lemma.
- String order: `String.compareTo` compares UTF-16 code units, while the model compares Dafny characters. Struct names, member names and enum values are ordered as strings; the metamodel's own `compareTo` is not part of this model.
- Requires: `RubyBuffer` has no method that adds a require, so the set stays empty. `ToString` is proved for any set.
- `level` overflow: Java's `int` level would wrap after 2^31 openers. The model's level is unbounded.
- The duplicated `else` test in `isEnd` has no effect. The model tests `else` once.
- Structs are compared by name: the model resolves `sorted.contains(base)` by the base's name rather than by object identity. The model assumes names are unique where that matters (`AncestorsBefore`, `OrderAncestorsBefore`).
- TypeOrder.OrderStructs: termination is proved under `Acyclic`, meaning every base is a struct of the model and no chain of bases is circular. On a cyclic model the source loops forever; that case is not modelled.
- generateEnum: `generateSource` calls `generateType` only on structs, so no enum reaches the file. `GenerateEnum` and `EnumShape` are proved on their own, and `OtherTypesIgnored` states that enums do not change the output.
- Streams: the `forEach` over streams and deques becomes `for`/`while` loops over sequences.
- Helper methods: `AddLine`, `ToString`, `generateGetter` and `generateSetter` are split into helper methods (`IndentLine`, `RenderRequires`, `RenderBody`, `AddSetter` and the per-type `Add…` methods) that write the same lines in the same order.
- TypesGeneration.TypesGenerator.GenerateGetter: the level-keeping ensures of this and the other generator methods holds only under `ValidNaming`. A property name ending in `(` or `|` would change the level, as it would in the source.
