/**
 * The events the agent traces and the fixed message each one is traced
 * with. An `Event` carries what the JVM hands the callback (a class
 * signature for the two events that resolve a class); an `Entry` carries
 * the names as they appear in the message.
 */
module Messages {
  import opened Options
  import ClassName

  datatype Event =
    | VMStart
    | VMInit
    | ClassFileLoad(name: seq<char>)
    | ClassPrepare(signature: seq<char>)
    | DynamicCodeGenerated(name: seq<char>)
    | CompiledMethodLoad(holderSignature: seq<char>, methodName: seq<char>)
    | GarbageCollectionStart
    | GarbageCollectionFinish

  /** The content of one trace line: the agent's own start line or one resolved event. */
  datatype Entry =
    | AgentStarted
    | VMStarted
    | VMInitialized
    | LoadingClass(name: seq<char>)
    | ClassPrepared(className: seq<char>)
    | CodeGenerated(name: seq<char>)
    | MethodCompiled(holder: seq<char>, methodName: seq<char>)
    | GCStarted
    | GCFinished

  /** The callbacks index the last character of a signature, so it must not be empty. */
  predicate Resolvable(ev: Event) {
    (ev.ClassPrepare? ==> |ev.signature| >= 1) &&
    (ev.CompiledMethodLoad? ==> |ev.holderSignature| >= 1)
  }

  /** What each callback traces: the class signatures pass through `fix_class_name`. */
  function Resolve(ev: Event): (entry: Entry)
    requires Resolvable(ev)
  {
    match ev
    case VMStart => VMStarted
    case VMInit => VMInitialized
    case ClassFileLoad(name) => LoadingClass(name)
    case ClassPrepare(signature) => ClassPrepared(ClassName.Fixed(signature))
    case DynamicCodeGenerated(name) => CodeGenerated(name)
    case CompiledMethodLoad(holder, name) => MethodCompiled(ClassName.Fixed(holder), name)
    case GarbageCollectionStart => GCStarted
    case GarbageCollectionFinish => GCFinished
  }

  const LoadingLabel: seq<char> := "Loading class: "
  const PreparedLabel: seq<char> := "Class prepared: "
  const GeneratedLabel: seq<char> := "Dynamic code generated: "
  const CompiledLabel: seq<char> := "Method compiled: "

  /** The message a line carries, before the buffer it is formatted into is printed. */
  function Text(entry: Entry): seq<char> {
    match entry
    case AgentStarted => "VMTrace started"
    case VMStarted => "VM started"
    case VMInitialized => "VM initialized"
    case LoadingClass(name) => LoadingLabel + name
    case ClassPrepared(name) => PreparedLabel + name
    case CodeGenerated(name) => GeneratedLabel + name
    case MethodCompiled(holder, name) => CompiledLabel + holder + "." + name
    case GCStarted => "GC started"
    case GCFinished => "GC finished"
  }

  /** A method name in the JVM's sense never contains a `.` (section 4.2.2 of The Java Virtual Machine Specification). */
  predicate Unqualified(name: seq<char>) {
    forall i :: 0 <= i < |name| ==> name[i] != '.'
  }

  predicate WellFormed(entry: Entry) {
    entry.MethodCompiled? ==> Unqualified(entry.methodName)
  }

  /** Index of the last `c` in `s`, or -1. */
  function LastIndexOf(s: seq<char>, c: char): (i: int)
    ensures -1 <= i < |s|
    ensures 0 <= i ==> s[i] == c
    ensures forall j :: i < j < |s| ==> s[j] != c
  {
    if s == [] then -1
    else if s[|s| - 1] == c then |s| - 1
    else LastIndexOf(s[..|s| - 1], c)
  }

  /** Reads a message back into the entry it was made from, dispatching on its first character. */
  function ParseText(msg: seq<char>): Option<Entry> {
    if msg == [] then None
    else if msg[0] == 'V' then
      if msg == "VMTrace started" then Some(AgentStarted)
      else if msg == "VM started" then Some(VMStarted)
      else if msg == "VM initialized" then Some(VMInitialized)
      else None
    else if msg[0] == 'G' then
      if msg == "GC started" then Some(GCStarted)
      else if msg == "GC finished" then Some(GCFinished)
      else None
    else if msg[0] == 'L' then
      if LoadingLabel <= msg then Some(LoadingClass(msg[|LoadingLabel|..])) else None
    else if msg[0] == 'C' then
      if PreparedLabel <= msg then Some(ClassPrepared(msg[|PreparedLabel|..])) else None
    else if msg[0] == 'D' then
      if GeneratedLabel <= msg then Some(CodeGenerated(msg[|GeneratedLabel|..])) else None
    else if msg[0] == 'M' && CompiledLabel <= msg then
      var rest := msg[|CompiledLabel|..];
      var dot := LastIndexOf(rest, '.');
      if dot < 0 then None else Some(MethodCompiled(rest[..dot], rest[dot + 1..]))
    else None
  }

  /** A message made of a label and a name reads back as that name. */
  lemma LabelledRoundTrip(tag: seq<char>, name: seq<char>)
    requires |tag| >= 1
    ensures (tag + name)[0] == tag[0]
    ensures tag <= tag + name && (tag + name)[|tag|..] == name
  {
  }

  /** The method name is everything after the last `.`: the holder may contain dots, the method name does not. */
  lemma SplitAtLastDot(holder: seq<char>, name: seq<char>)
    requires Unqualified(name)
    ensures var rest := holder + "." + name;
            LastIndexOf(rest, '.') == |holder| &&
            rest[..|holder|] == holder && rest[|holder| + 1..] == name
  {
    var rest := holder + "." + name;
    assert rest[|holder|] == '.';
  }

  /** The five fixed messages read back as their entries. */
  lemma FixedMessagesRoundTrip()
    ensures ParseText("VMTrace started") == Some(AgentStarted)
    ensures ParseText("VM started") == Some(VMStarted)
    ensures ParseText("VM initialized") == Some(VMInitialized)
    ensures ParseText("GC started") == Some(GCStarted)
    ensures ParseText("GC finished") == Some(GCFinished)
  {
  }

  /** The four labelled messages read back as their entries. */
  lemma LabelledMessagesRoundTrip(name: seq<char>)
    ensures ParseText(LoadingLabel + name) == Some(LoadingClass(name))
    ensures ParseText(PreparedLabel + name) == Some(ClassPrepared(name))
    ensures ParseText(GeneratedLabel + name) == Some(CodeGenerated(name))
  {
    LabelledRoundTrip(LoadingLabel, name);
    LabelledRoundTrip(PreparedLabel, name);
    LabelledRoundTrip(GeneratedLabel, name);
  }

  lemma MethodMessageRoundTrip(holder: seq<char>, name: seq<char>)
    requires Unqualified(name)
    ensures ParseText(CompiledLabel + holder + "." + name) == Some(MethodCompiled(holder, name))
  {
    LabelledRoundTrip(CompiledLabel, holder + "." + name);
    assert CompiledLabel + holder + "." + name == CompiledLabel + (holder + "." + name);
    SplitAtLastDot(holder, name);
  }

  /** Every message names its entry unambiguously: reading it back gives the entry. */
  lemma TextRoundTrip(entry: Entry)
    requires WellFormed(entry)
    ensures ParseText(Text(entry)) == Some(entry)
  {
    FixedMessagesRoundTrip();
    match entry
    case LoadingClass(name) => LabelledMessagesRoundTrip(name);
    case ClassPrepared(name) => LabelledMessagesRoundTrip(name);
    case CodeGenerated(name) => LabelledMessagesRoundTrip(name);
    case MethodCompiled(holder, name) => MethodMessageRoundTrip(holder, name);
    case _ =>
  }

  /** Distinct well-formed entries never share a message. */
  lemma TextInjective(e1: Entry, e2: Entry)
    requires WellFormed(e1) && WellFormed(e2)
    requires Text(e1) == Text(e2)
    ensures e1 == e2
  {
    TextRoundTrip(e1);
    TextRoundTrip(e2);
  }

  /** `Method compiled` joins the fixed holder name and the method name with one `.`. */
  lemma MethodCompiledText(holderSignature: seq<char>, methodName: seq<char>)
    requires |holderSignature| >= 1
    ensures Text(Resolve(CompiledMethodLoad(holderSignature, methodName)))
         == CompiledLabel + ClassName.Fixed(holderSignature) + "." + methodName
  {
  }

  /** The class-prepared line of a reference type shows the internal name, slashes kept. */
  lemma ClassPreparedExample()
    ensures Text(Resolve(ClassPrepare("Lcom/example/Foo;"))) == "Class prepared: com/example/Foo"
  {
  }

  /** The method-compiled line of `run` in `Lcom/example/Foo;`. */
  lemma MethodCompiledExample()
    ensures Text(Resolve(CompiledMethodLoad("Lcom/example/Foo;", "run"))) == "Method compiled: com/example/Foo.run"
  {
  }
}
