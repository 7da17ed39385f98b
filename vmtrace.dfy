/**
 * The agent itself: the write-once `start_time`, the calls of `trace` made
 * so far, and one method per JVMTI callback. Every JVMTI query (`GetTime`,
 * `GetClassSignature`, `GetMethodName`, ...) is replaced by the value it
 * returns, passed in as a parameter.
 */
module VMTrace {
  import opened CArith
  import opened CString
  import ClassName
  import Messages
  import opened TraceLine

  class Agent {
    /** `start_time`: the `GetTime` value taken when the agent was loaded. */
    var startTime: int
    /** The calls of `trace` so far, oldest first; each one is a line on stderr. */
    var writes: seq<Write>
    /** Whether `Agent_OnLoad` has run: it runs once, and the JVM delivers no event before it. */
    ghost var loaded: bool

    /** The process before the agent is loaded: the static `start_time` is zero, nothing is written. */
    constructor ()
      ensures startTime == 0 && writes == [] && !loaded
    {
      startTime := 0;
      writes := [];
      loaded := false;
    }

    /** The text on stderr: the line of each call of `trace`, in call order. */
    function Stderr(): (lines: seq<seq<char>>)
      reads this
      ensures |lines| == |writes|
      ensures forall i :: 0 <= i < |writes| ==> lines[i] == Line(writes[i].elapsed, writes[i].message)
    {
      RenderLines(writes);
      Render(writes)
    }

    /**
     * `trace`: one line for `msg`, stamped with the time elapsed since
     * `start_time`. `now` is what `GetTime` returned; the subtraction is on
     * `jlong`, so it must not overflow, and the message must fit the buffer.
     */
    method Trace(now: int, msg: seq<char>)
      requires loaded
      requires InInt64(now - startTime)
      requires FitsBuffer(msg) && NoNul(msg)
      modifies this`writes
      ensures writes == old(writes) + [Write(now - old(startTime), msg)]
    {
      writes := writes + [Write(now - startTime, msg)];
    }

    /**
     * `Agent_OnLoad`: records the load time as `start_time`, traces
     * `VMTrace started` and reports success. Capability and callback
     * registration have no effect on the trace and are not modelled.
     */
    method OnLoad(loadTime: int, now: int) returns (status: int)
      requires !loaded
      requires InInt64(now - loadTime)
      modifies this
      ensures loaded
      ensures startTime == loadTime
      ensures writes == old(writes) + [Write(now - loadTime, Messages.Text(Messages.AgentStarted))]
      ensures status == 0
    {
      startTime := loadTime;
      loaded := true;
      Trace(now, Messages.Text(Messages.AgentStarted));
      status := 0;
    }

    method VMStart(now: int)
      requires loaded
      requires InInt64(now - startTime)
      modifies this`writes
      ensures writes == old(writes) + [Write(now - startTime, Messages.Text(Messages.Resolve(Messages.VMStart)))]
    {
      Trace(now, Messages.Text(Messages.VMStarted));
    }

    method VMInit(now: int)
      requires loaded
      requires InInt64(now - startTime)
      modifies this`writes
      ensures writes == old(writes) + [Write(now - startTime, Messages.Text(Messages.Resolve(Messages.VMInit)))]
    {
      Trace(now, Messages.Text(Messages.VMInitialized));
    }

    /** `ClassFileLoadHook`: the class name the JVM passes is printed as it is. */
    method ClassFileLoadHook(now: int, name: seq<char>)
      requires loaded
      requires InInt64(now - startTime)
      requires NoNul(name)
      requires FitsBuffer(Messages.Text(Messages.Resolve(Messages.ClassFileLoad(name))))
      modifies this`writes
      ensures writes == old(writes) + [Write(now - startTime, Messages.Text(Messages.Resolve(Messages.ClassFileLoad(name))))]
    {
      Trace(now, Messages.Text(Messages.LoadingClass(name)));
    }

    /**
     * `ClassPrepare`: `signature` is the buffer `GetClassSignature` filled;
     * `fix_class_name` rewrites it in place before the line is traced.
     */
    method ClassPrepare(now: int, signature: array<char>)
      requires loaded
      requires InInt64(now - startTime)
      requires Terminated(signature[..]) && Len(signature[..]) >= 1
      requires FitsBuffer(Messages.Text(Messages.Resolve(Messages.ClassPrepare(Str(signature[..])))))
      modifies this`writes, signature
      ensures signature[..] == ClassName.Terminate(old(signature[..]))
      ensures writes == old(writes) + [Write(now - startTime, Messages.Text(Messages.Resolve(Messages.ClassPrepare(old(Str(signature[..]))))))]
    {
      var offset := ClassName.FixClassName(signature);
      Trace(now, Messages.Text(Messages.ClassPrepared(Str(signature[offset..]))));
    }

    method DynamicCodeGenerated(now: int, name: seq<char>)
      requires loaded
      requires InInt64(now - startTime)
      requires NoNul(name)
      requires FitsBuffer(Messages.Text(Messages.Resolve(Messages.DynamicCodeGenerated(name))))
      modifies this`writes
      ensures writes == old(writes) + [Write(now - startTime, Messages.Text(Messages.Resolve(Messages.DynamicCodeGenerated(name))))]
    {
      Trace(now, Messages.Text(Messages.CodeGenerated(name)));
    }

    /**
     * `CompiledMethodLoad`: `methodName` is what `GetMethodName` returned and
     * `holderSignature` the buffer `GetClassSignature` filled for the declaring class.
     */
    method CompiledMethodLoad(now: int, methodName: seq<char>, holderSignature: array<char>)
      requires loaded
      requires InInt64(now - startTime)
      requires Terminated(holderSignature[..]) && Len(holderSignature[..]) >= 1
      requires NoNul(methodName)
      requires FitsBuffer(Messages.Text(Messages.Resolve(Messages.CompiledMethodLoad(Str(holderSignature[..]), methodName))))
      modifies this`writes, holderSignature
      ensures holderSignature[..] == ClassName.Terminate(old(holderSignature[..]))
      ensures writes == old(writes) + [Write(now - startTime,
                Messages.Text(Messages.Resolve(Messages.CompiledMethodLoad(old(Str(holderSignature[..])), methodName))))]
    {
      var offset := ClassName.FixClassName(holderSignature);
      Trace(now, Messages.Text(Messages.MethodCompiled(Str(holderSignature[offset..]), methodName)));
    }

    method GarbageCollectionStart(now: int)
      requires loaded
      requires InInt64(now - startTime)
      modifies this`writes
      ensures writes == old(writes) + [Write(now - startTime, Messages.Text(Messages.Resolve(Messages.GarbageCollectionStart)))]
    {
      Trace(now, Messages.Text(Messages.GCStarted));
    }

    method GarbageCollectionFinish(now: int)
      requires loaded
      requires InInt64(now - startTime)
      modifies this`writes
      ensures writes == old(writes) + [Write(now - startTime, Messages.Text(Messages.Resolve(Messages.GarbageCollectionFinish)))]
    {
      Trace(now, Messages.Text(Messages.GCFinished));
    }
  }

  /**
   * A load at time 0 followed by VM start at 5 ms and VM init at 10 ms
   * makes three calls of `trace`, in that order, with those elapsed times;
   * `TraceLine.ZeroExample`, `TraceLine.MillisecondsExample` and
   * `TraceLine.TenMillisecondsExample` give the stamps they print.
   */
  method StartupScenario() returns (agent: Agent)
    ensures agent.writes == [Write(0, "VMTrace started"), Write(5_000_000, "VM started"), Write(10_000_000, "VM initialized")]
  {
    agent := new Agent();
    var status := agent.OnLoad(0, 0);
    agent.VMStart(5_000_000);
    agent.VMInit(10_000_000);
  }
}
