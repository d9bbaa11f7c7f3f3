/** The late-bound dispatch shared by every façade operation of both `Addin`
    revisions: the method table captured at construction, the first-match
    lookup by name, and the invoke-or-fall-back protocol. */
module Dispatch {
  import opened Nullables
  import opened Enums

  /** A public instance method of the host, as reflection reports it. Overloads
      share a name and differ in their parameter types, which the façade never
      inspects. */
  datatype MethodInfo = MethodInfo(name: string, parameterTypes: seq<string>)

  /** One element of the `object[]` handed to `MethodInfo.Invoke`. */
  datatype Arg = IntArg(i: int) | StringArg(s: string) | BoolArg(b: bool)

  /** What the façade does to the host: consult the method table for a name,
      or invoke a method with positional arguments. */
  datatype Event = Lookup(name: string) | Invoke(target: MethodInfo, args: seq<Arg>)

  type Trace = seq<Event>

  /** A façade call's returned value together with everything it did. */
  datatype Outcome<R> = Outcome(result: R, trace: Trace)

  /** The opaque host object: its public instance methods in the order
      reflection lists them (an order .NET does not fix; nothing here depends
      on which), and for each result-returning operation what invoking a given
      method with given arguments returns once cast to the façade's struct.
      The host has state: each answer may depend on every invocation it has
      received before (the `Invoke` events of its history; lookups search the
      adapter's own table and never reach it), so two identical calls may get
      different answers. */
  datatype HostObject = HostObject(
    publicInstanceMethods: seq<MethodInfo>,
    addCustomNote: (Trace, MethodInfo, seq<Arg>) -> AddCustomNoteResult,
    deleteCustomNote: (Trace, MethodInfo, seq<Arg>) -> DeleteCustomNoteResult,
    getAllSheetNotes: (Trace, MethodInfo, seq<Arg>) -> GetSheetNotesResult,
    refreshNoteTables: (Trace, MethodInfo, seq<Arg>) -> RefreshNoteTablesResult,
    updateCustomNote: (Trace, MethodInfo, seq<Arg>) -> UpdatedCustomNoteResult)

  /** The part of a trace the host observes: its `Invoke` events, in order. */
  function Invocations(t: Trace): (r: Trace)
    ensures forall e :: e in r <==> e in t && e.Invoke?
    ensures |r| <= |t|
  {
    if |t| == 0 then []
    else if t[0].Invoke? then [t[0]] + Invocations(t[1..])
    else Invocations(t[1..])
  }

  /** A trace of lookups alone shows the host nothing. */
  lemma {:induction false} LookupsHaveNoInvocations(t: Trace)
    requires forall e :: e in t ==> e.Lookup?
    ensures Invocations(t) == []
  {
    if |t| > 0 {
      assert t[0] in t;
      assert forall e :: e in t[1..] ==> e in t;
      LookupsHaveNoInvocations(t[1..]);
    }
  }

  /** Filtering a concatenation filters each part in order. */
  lemma {:induction false} InvocationsOfConcat(s: Trace, t: Trace)
    ensures Invocations(s + t) == Invocations(s) + Invocations(t)
  {
    if |s| > 0 {
      assert (s + t)[0] == s[0];
      assert (s + t)[1..] == s[1..] + t;
      InvocationsOfConcat(s[1..], t);
    } else {
      assert s + t == t;
    }
  }

  /** The adapter: the host it wraps and the method table read from it once. */
  datatype Addin = Addin(versaNoteObject: HostObject, methods: seq<MethodInfo>)

  /** The constructor: captures the host's public instance methods. A table
      without any of the façade's operation names is a valid adapter, on which
      every operation reports itself unsupported. */
  function NewAddin(versaNoteObject: HostObject): Addin
  {
    Addin(versaNoteObject, versaNoteObject.publicInstanceMethods)
  }

  /** `i` is the position of the first table entry named `name`. */
  ghost predicate IsFirstNamed(methods: seq<MethodInfo>, name: string, i: int)
  {
    && 0 <= i < |methods|
    && methods[i].name == name
    && forall j :: 0 <= j < i ==> methods[j].name != name
  }

  /** No table entry is named `name`. */
  ghost predicate NoneNamed(methods: seq<MethodInfo>, name: string)
  {
    forall j :: 0 <= j < |methods| ==> methods[j].name != name
  }

  /** The position `FirstOrDefault(x => x.Name == name)` stops at, or null
      when it runs off the end of the table. */
  function FirstIndexNamed(methods: seq<MethodInfo>, name: string): (r: Nullable<nat>)
    ensures r.NonNull? ==> IsFirstNamed(methods, name, r.value)
    ensures r.Null? <==> NoneNamed(methods, name)
  {
    if |methods| == 0 then Null
    else if methods[0].name == name then NonNull(0)
    else
      match FirstIndexNamed(methods[1..], name)
      case Null => Null
      case NonNull(k) => NonNull(k + 1)
  }

  /** `FirstOrDefault(x => x.Name == name)` over the method table. */
  function FirstOrDefault(methods: seq<MethodInfo>, name: string): (m: Nullable<MethodInfo>)
    ensures m.NonNull? ==> exists i :: IsFirstNamed(methods, name, i) && methods[i] == m.value
    ensures m.Null? <==> NoneNamed(methods, name)
  {
    match FirstIndexNamed(methods, name)
    case Null => Null
    case NonNull(i) => NonNull(methods[i])
  }

  /** The façade's protocol once any precondition has passed: look `name` up;
      if the first method of that name exists, invoke it with `args` and
      return exactly what the host, having received the invocations in
      `history`, returns;
      otherwise return `notFound` without invoking anything. */
  ghost predicate FollowsProtocol<R>(methods: seq<MethodInfo>, history: Trace, name: string, args: seq<Arg>,
                                     invoke: (Trace, MethodInfo, seq<Arg>) -> R, notFound: R, o: Outcome<R>)
  {
    || (exists i :: IsFirstNamed(methods, name, i)
                   && o.result == invoke(Invocations(history), methods[i], args)
                   && o.trace == [Lookup(name), Invoke(methods[i], args)])
    || (NoneNamed(methods, name) && o.result == notFound && o.trace == [Lookup(name)])
  }

  /** Lookup-then-invoke-or-fall-back, shared by every façade operation. */
  function Call<R(==)>(a: Addin, history: Trace, name: string, args: seq<Arg>,
                       invoke: (Trace, MethodInfo, seq<Arg>) -> R, notFound: R): (o: Outcome<R>)
    ensures FollowsProtocol(a.methods, history, name, args, invoke, notFound, o)
  {
    match FirstIndexNamed(a.methods, name)
    case NonNull(i) => Outcome(invoke(Invocations(history), a.methods[i], args), [Lookup(name), Invoke(a.methods[i], args)])
    case Null => Outcome(notFound, [Lookup(name)])
  }

  /** The protocol of a `void` operation: invoke the first method named
      `name` if there is one, and otherwise do nothing, reporting nothing. */
  ghost predicate FollowsVoidProtocol(methods: seq<MethodInfo>, name: string, args: seq<Arg>, t: Trace)
  {
    || (exists i :: IsFirstNamed(methods, name, i) && t == [Lookup(name), Invoke(methods[i], args)])
    || (NoneNamed(methods, name) && t == [Lookup(name)])
  }

  /** Lookup-then-invoke-or-nothing for operations with no result. */
  function CallVoid(a: Addin, name: string, args: seq<Arg>): (t: Trace)
    ensures FollowsVoidProtocol(a.methods, name, args, t)
  {
    Call(a, [], name, args, (h: Trace, m: MethodInfo, xs: seq<Arg>) => (), ()).trace
  }

  /** The protocol pins down a single outcome: there is at most one first
      match, and a match and no match exclude each other. */
  lemma ProtocolIsDeterministic<R>(methods: seq<MethodInfo>, history: Trace, name: string, args: seq<Arg>,
                                   invoke: (Trace, MethodInfo, seq<Arg>) -> R, notFound: R,
                                   o1: Outcome<R>, o2: Outcome<R>)
    requires FollowsProtocol(methods, history, name, args, invoke, notFound, o1)
    requires FollowsProtocol(methods, history, name, args, invoke, notFound, o2)
    ensures o1 == o2
  {
    if i1 :| IsFirstNamed(methods, name, i1) && o1.result == invoke(Invocations(history), methods[i1], args)
                                             && o1.trace == [Lookup(name), Invoke(methods[i1], args)] {
      var i2 :| IsFirstNamed(methods, name, i2) && o2.result == invoke(Invocations(history), methods[i2], args)
                                                && o2.trace == [Lookup(name), Invoke(methods[i2], args)];
      FirstNamedIsUnique(methods, name, i1, i2);
    }
  }

  lemma FirstNamedIsUnique(methods: seq<MethodInfo>, name: string, i: int, j: int)
    requires IsFirstNamed(methods, name, i) && IsFirstNamed(methods, name, j)
    ensures i == j
  {
  }

  /** Methods listed after the first match, such as later overloads of the
      same name, are never chosen: appending to the table changes nothing. */
  lemma {:induction false} LaterOverloadsNeverChosen(methods: seq<MethodInfo>, extra: seq<MethodInfo>, name: string)
    requires FirstIndexNamed(methods, name).NonNull?
    ensures FirstIndexNamed(methods + extra, name) == FirstIndexNamed(methods, name)
  {
    if methods[0].name != name {
      assert (methods + extra)[1..] == methods[1..] + extra;
      LaterOverloadsNeverChosen(methods[1..], extra, name);
    }
  }

  /** A prefix with no method of the wanted name only shifts the match. */
  lemma {:induction false} AbsentPrefixOnlyShifts(prefix: seq<MethodInfo>, methods: seq<MethodInfo>, name: string)
    requires NoneNamed(prefix, name)
    ensures FirstIndexNamed(prefix + methods, name)
         == match FirstIndexNamed(methods, name)
            case Null => Null
            case NonNull(k) => NonNull(|prefix| + k)
  {
    if |prefix| > 0 {
      assert (prefix + methods)[1..] == prefix[1..] + methods;
      AbsentPrefixOnlyShifts(prefix[1..], methods, name);
    } else {
      assert prefix + methods == methods;
    }
  }
  /** The adapter's table is exactly what the constructor read from the host:
      every public instance method of the host can be found by its name, and
      a name the host does not expose is never found. */
  lemma ConstructorExposesEveryPublicMethod(versaNoteObject: HostObject, name: string)
    ensures FirstOrDefault(NewAddin(versaNoteObject).methods, name).NonNull?
        <==> exists i :: 0 <= i < |versaNoteObject.publicInstanceMethods|
                         && versaNoteObject.publicInstanceMethods[i].name == name
    ensures FirstOrDefault(NewAddin(versaNoteObject).methods, name).NonNull? ==>
              FirstOrDefault(NewAddin(versaNoteObject).methods, name).value in versaNoteObject.publicInstanceMethods
  {
  }
}
