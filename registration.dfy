/**
 * MediatorAltExtension: the registration phase. AddMediatorAlt registers the
 * Sender and then, for every scanned type that implements IRequestHandler<,>,
 * one transient registration per such interface; AddMediatorAltLogging and
 * AddMediatorAltFluentValidation each append one open-generic pipeline
 * behaviour. The service collection is an ordered list of descriptors that
 * these methods only ever append to.
 */
module Registration {
  import opened Core

  /** An interface a type can implement; command and query handlers are request handlers too. */
  datatype Interface =
    | RequestHandler(key: HandlerKey)
    | CommandHandler(key: HandlerKey)
    | QueryHandler(key: HandlerKey)
    | OtherInterface(name: string)

  /** A scanned type: its name and the interfaces it declares. */
  datatype TypeDescriptor = TypeDescriptor(name: string, declared: seq<Interface>)

  datatype Lifetime = Scoped | Transient

  datatype ServiceType =
    | SenderService
    | RequestHandlerService(key: HandlerKey)
    | PipelineBehaviorService
    | OtherService(name: string)

  datatype ServiceDescriptor = ServiceDescriptor(service: ServiceType, implementation: string, lifetime: Lifetime)

  const SenderType := "Sender"
  const LoggingBehaviorType := "LoggingBehavior`2"
  const ValidationBehaviorType := "ValidationBehavior`2"
  const SenderRegistration := ServiceDescriptor(SenderService, SenderType, Scoped)

  /** The interfaces an interface extends: ICommandHandler<,> and IQueryHandler<,> extend IRequestHandler<,>. */
  function Inherited(i: Interface): seq<Interface>
  {
    match i
    case CommandHandler(k) => [RequestHandler(k)]
    case QueryHandler(k) => [RequestHandler(k)]
    case _ => []
  }

  function Expand(declared: seq<Interface>): (r: seq<Interface>)
    ensures forall i :: i in declared ==> i in r
    ensures forall k :: RequestHandler(k) in r <==>
      RequestHandler(k) in declared || CommandHandler(k) in declared || QueryHandler(k) in declared
  {
    if declared == [] then []
    else [declared[0]] + Inherited(declared[0]) + Expand(declared[1..])
  }

  /** The elements of `s`, each once, in order of first occurrence. */
  function Distinct(s: seq<Interface>): (r: seq<Interface>)
    ensures forall x :: x in r <==> x in s
    ensures forall i, j :: 0 <= i < j < |r| ==> r[i] != r[j]
  {
    if s == [] then []
    else
      var r := Distinct(s[..|s| - 1]);
      assert forall x :: x in s <==> x in s[..|s| - 1] || x == s[|s| - 1];
      if s[|s| - 1] in r then r else r + [s[|s| - 1]]
  }

  /**
   * Type.GetInterfaces(): the interfaces a type declares and those they
   * extend, each once.
   */
  function GetInterfaces(t: TypeDescriptor): (r: seq<Interface>)
    ensures forall i :: i in t.declared ==> i in r
    ensures forall k :: RequestHandler(k) in r <==>
      RequestHandler(k) in t.declared || CommandHandler(k) in t.declared || QueryHandler(k) in t.declared
    ensures forall i, j :: 0 <= i < j < |r| ==> r[i] != r[j]
  {
    Distinct(Expand(t.declared))
  }

  /** The keys of the IRequestHandler<,> interfaces among `s`, in order. */
  function HandlerKeys(s: seq<Interface>): (keys: seq<HandlerKey>)
    ensures forall k :: k in keys <==> RequestHandler(k) in s
    ensures |keys| <= |s|
  {
    if s == [] then []
    else (if s[0].RequestHandler? then [s[0].key] else []) + HandlerKeys(s[1..])
  }

  /** The inner Where of AddMediatorAlt: the request-handler interfaces of a type. */
  function HandlerInterfaces(t: TypeDescriptor): seq<HandlerKey>
  {
    HandlerKeys(GetInterfaces(t))
  }

  /** The outer Where of AddMediatorAlt: the type implements some IRequestHandler<,>. */
  predicate IsHandlerType(t: TypeDescriptor)
  {
    exists i :: i in GetInterfaces(t) && i.RequestHandler?
  }

  function HandlerTypes(types: seq<TypeDescriptor>): (handlers: seq<TypeDescriptor>)
    ensures forall t :: t in handlers <==> t in types && IsHandlerType(t)
  {
    if types == [] then []
    else (if IsHandlerType(types[0]) then [types[0]] else []) + HandlerTypes(types[1..])
  }

  /** The registrations of one handler type: each of its handler interfaces mapped to it. */
  function Registrations(t: TypeDescriptor): seq<ServiceDescriptor>
  {
    var keys := HandlerInterfaces(t);
    seq(|keys|, j requires 0 <= j < |keys| => ServiceDescriptor(RequestHandlerService(keys[j]), t.name, Transient))
  }

  function RegistrationsOf(handlers: seq<TypeDescriptor>): seq<ServiceDescriptor>
  {
    if handlers == [] then [] else Registrations(handlers[0]) + RegistrationsOf(handlers[1..])
  }

  /** Everything AddMediatorAlt appends after the Sender. */
  function HandlerRegistrations(types: seq<TypeDescriptor>): seq<ServiceDescriptor>
  {
    RegistrationsOf(HandlerTypes(types))
  }

  /** The implementations registered as pipeline behaviours, in registration order. */
  function BehaviorTypes(descriptors: seq<ServiceDescriptor>): (behaviors: seq<string>)
    ensures |behaviors| <= |descriptors|
    ensures forall x :: x in behaviors <==>
      exists d :: d in descriptors && d.service.PipelineBehaviorService? && d.implementation == x
  {
    if descriptors == [] then []
    else
      var last := descriptors[|descriptors| - 1];
      assert forall d :: d in descriptors <==> d in descriptors[..|descriptors| - 1] || d == last;
      BehaviorTypes(descriptors[..|descriptors| - 1])
        + (if last.service.PipelineBehaviorService? then [last.implementation] else [])
  }

  /** What resolving a service yields: the implementation registered last for it, if any. */
  function Resolve(descriptors: seq<ServiceDescriptor>, service: ServiceType): (r: Option<string>)
    ensures r.None? <==> forall i :: 0 <= i < |descriptors| ==> descriptors[i].service != service
    ensures r.Some? ==> exists i ::
      && 0 <= i < |descriptors| && descriptors[i].service == service && descriptors[i].implementation == r.value
      && forall j :: i < j < |descriptors| ==> descriptors[j].service != service
  {
    if descriptors == [] then None
    else
      var last := descriptors[|descriptors| - 1];
      if last.service == service then Some(last.implementation) else Resolve(descriptors[..|descriptors| - 1], service)
  }

  class ServiceCollection {
    var descriptors: seq<ServiceDescriptor>

    constructor ()
      ensures descriptors == []
    {
      descriptors := [];
    }

    method Add(descriptor: ServiceDescriptor)
      modifies this
      ensures descriptors == old(descriptors) + [descriptor]
    {
      descriptors := descriptors + [descriptor];
    }

    /**
     * AddMediatorAlt: the Sender first, then, type by type, the registrations
     * of every scanned type that has an IRequestHandler<,>.
     */
    method AddMediatorAlt(types: seq<TypeDescriptor>) returns (services: ServiceCollection)
      modifies this
      ensures services == this
      ensures descriptors == old(descriptors) + [SenderRegistration] + HandlerRegistrations(types)
    {
      Add(SenderRegistration);
      ghost var prefix := descriptors;
      var handlers := HandlerTypes(types);
      for i := 0 to |handlers|
        invariant descriptors == prefix + RegistrationsOf(handlers[..i])
      {
        AddHandler(handlers[i]);
        RegistrationsStep(prefix, handlers, i);
      }
      assert handlers[..|handlers|] == handlers;
      services := this;
    }

    /** The inner loop of AddMediatorAlt: one transient registration per handler interface of `handler`. */
    method AddHandler(handler: TypeDescriptor)
      modifies this
      ensures descriptors == old(descriptors) + Registrations(handler)
    {
      var interfaces := HandlerInterfaces(handler);
      for j := 0 to |interfaces|
        invariant descriptors == old(descriptors) + Registrations(handler)[..j]
      {
        Add(ServiceDescriptor(RequestHandlerService(interfaces[j]), handler.name, Transient));
        assert Registrations(handler)[..j + 1] == Registrations(handler)[..j] + [Registrations(handler)[j]];
      }
      assert Registrations(handler)[..|interfaces|] == Registrations(handler);
    }

    /** AddMediatorAltLogging: one open-generic LoggingBehavior registration. */
    method AddMediatorAltLogging() returns (services: ServiceCollection)
      modifies this
      ensures services == this
      ensures descriptors == old(descriptors) + [ServiceDescriptor(PipelineBehaviorService, LoggingBehaviorType, Transient)]
      ensures BehaviorTypes(descriptors) == BehaviorTypes(old(descriptors)) + [LoggingBehaviorType]
    {
      Add(ServiceDescriptor(PipelineBehaviorService, LoggingBehaviorType, Transient));
      assert descriptors[..|descriptors| - 1] == old(descriptors);
      services := this;
    }

    /** AddMediatorAltFluentValidation: one open-generic ValidationBehavior registration. */
    method AddMediatorAltFluentValidation() returns (services: ServiceCollection)
      modifies this
      ensures services == this
      ensures descriptors == old(descriptors) + [ServiceDescriptor(PipelineBehaviorService, ValidationBehaviorType, Transient)]
      ensures BehaviorTypes(descriptors) == BehaviorTypes(old(descriptors)) + [ValidationBehaviorType]
    {
      Add(ServiceDescriptor(PipelineBehaviorService, ValidationBehaviorType, Transient));
      assert descriptors[..|descriptors| - 1] == old(descriptors);
      services := this;
    }
  }

  lemma RegistrationsStep(prefix: seq<ServiceDescriptor>, handlers: seq<TypeDescriptor>, i: nat)
    requires i < |handlers|
    ensures prefix + RegistrationsOf(handlers[..i]) + Registrations(handlers[i]) == prefix + RegistrationsOf(handlers[..i + 1])
  {
    assert handlers[..i + 1] == handlers[..i] + [handlers[i]];
    RegistrationsOfSnoc(handlers[..i], handlers[i]);
  }

  lemma {:induction false} RegistrationsOfSnoc(handlers: seq<TypeDescriptor>, t: TypeDescriptor)
    ensures RegistrationsOf(handlers + [t]) == RegistrationsOf(handlers) + Registrations(t)
  {
    if handlers == [] {
      assert [t][1..] == [];
    } else {
      assert (handlers + [t])[1..] == handlers[1..] + [t];
      RegistrationsOfSnoc(handlers[1..], t);
    }
  }

  lemma RegistrationsMembers(t: TypeDescriptor, d: ServiceDescriptor)
    ensures d in Registrations(t) <==>
      d.service.RequestHandlerService? && d.implementation == t.name && d.lifetime == Transient
      && RequestHandler(d.service.key) in GetInterfaces(t)
  {
    var keys := HandlerInterfaces(t);
    if d.service.RequestHandlerService? && d.implementation == t.name && d.lifetime == Transient
      && RequestHandler(d.service.key) in GetInterfaces(t)
    {
      var j :| 0 <= j < |keys| && keys[j] == d.service.key;
      assert Registrations(t)[j] == d;
    }
  }

  lemma {:induction false} RegistrationsOfMembers(handlers: seq<TypeDescriptor>, d: ServiceDescriptor)
    ensures d in RegistrationsOf(handlers) <==> exists t :: t in handlers && d in Registrations(t)
  {
    if handlers != [] {
      RegistrationsOfMembers(handlers[1..], d);
      assert forall t :: t in handlers <==> t == handlers[0] || t in handlers[1..];
    }
  }

  /**
   * A type is registered under IRequestHandler<TReq, TResp> exactly when it
   * has that interface, and AddMediatorAlt registers nothing else.
   */
  lemma HandlerRegisteredIffImplements(types: seq<TypeDescriptor>, d: ServiceDescriptor)
    ensures d in HandlerRegistrations(types) <==>
      && d.service.RequestHandlerService? && d.lifetime == Transient
      && exists t :: t in types && t.name == d.implementation && RequestHandler(d.service.key) in GetInterfaces(t)
  {
    RegistrationsOfMembers(HandlerTypes(types), d);
    if d in HandlerRegistrations(types) {
      var t :| t in HandlerTypes(types) && d in Registrations(t);
      RegistrationsMembers(t, d);
    }
    if && d.service.RequestHandlerService? && d.lifetime == Transient
       && exists t :: t in types && t.name == d.implementation && RequestHandler(d.service.key) in GetInterfaces(t)
    {
      var t :| t in types && t.name == d.implementation && RequestHandler(d.service.key) in GetInterfaces(t);
      RegistrationsMembers(t, d);
      assert IsHandlerType(t);
    }
  }

  /** A type declaring ICommandHandler<TReq, TResp> or IQueryHandler<TReq, TResp> is registered under IRequestHandler<TReq, TResp>. */
  lemma InheritedHandlerRegistered(types: seq<TypeDescriptor>, t: TypeDescriptor, key: HandlerKey)
    requires t in types
    requires CommandHandler(key) in t.declared || QueryHandler(key) in t.declared
    ensures ServiceDescriptor(RequestHandlerService(key), t.name, Transient) in HandlerRegistrations(types)
  {
    HandlerRegisteredIffImplements(types, ServiceDescriptor(RequestHandlerService(key), t.name, Transient));
  }

  /** The number of IRequestHandler<,> interfaces across all scanned types. */
  function InterfaceCount(types: seq<TypeDescriptor>): nat
  {
    if types == [] then 0 else |HandlerInterfaces(types[0])| + InterfaceCount(types[1..])
  }

  /** A type with an IRequestHandler<,> interface passes the outer filter. */
  lemma HandlerInterfacesMakeHandler(t: TypeDescriptor)
    ensures |HandlerInterfaces(t)| > 0 ==> IsHandlerType(t)
  {
    if |HandlerInterfaces(t)| > 0 {
      assert RequestHandler(HandlerInterfaces(t)[0]) in GetInterfaces(t);
    }
  }

  lemma HandlerTypesStep(types: seq<TypeDescriptor>)
    requires types != []
    ensures HandlerTypes(types) == (if IsHandlerType(types[0]) then [types[0]] else []) + HandlerTypes(types[1..])
  {
  }

  lemma RegistrationsOfCons(t: TypeDescriptor, rest: seq<TypeDescriptor>)
    ensures RegistrationsOf([t] + rest) == Registrations(t) + RegistrationsOf(rest)
  {
    assert ([t] + rest)[0] == t && ([t] + rest)[1..] == rest;
  }

  /** One registration per handler interface: types without one contribute nothing. */
  lemma {:induction false} RegistrationCount(types: seq<TypeDescriptor>)
    ensures |HandlerRegistrations(types)| == InterfaceCount(types)
  {
    if types != [] {
      var t := types[0];
      RegistrationCount(types[1..]);
      HandlerTypesStep(types);
      if IsHandlerType(t) {
        RegistrationsOfCons(t, HandlerTypes(types[1..]));
      } else {
        HandlerInterfacesMakeHandler(t);
        assert |HandlerInterfaces(t)| == 0;
        assert HandlerTypes(types) == HandlerTypes(types[1..]);
      }
    }
  }

  lemma {:induction false} BehaviorTypesAppend(a: seq<ServiceDescriptor>, b: seq<ServiceDescriptor>)
    ensures BehaviorTypes(a + b) == BehaviorTypes(a) + BehaviorTypes(b)
    decreases |b|
  {
    if b == [] {
      assert a + b == a;
    } else {
      assert (a + b)[..|a + b| - 1] == a + b[..|b| - 1];
      BehaviorTypesAppend(a, b[..|b| - 1]);
    }
  }

  /** AddMediatorAlt leaves the behaviour list as it was. */
  lemma RegistrationAddsNoBehavior(descriptors: seq<ServiceDescriptor>, types: seq<TypeDescriptor>)
    ensures BehaviorTypes(descriptors + [SenderRegistration] + HandlerRegistrations(types)) == BehaviorTypes(descriptors)
  {
    var regs := HandlerRegistrations(types);
    forall d | d in regs
      ensures d.service.RequestHandlerService?
    {
      HandlerRegisteredIffImplements(types, d);
    }
    NoBehaviorAmong(regs);
    BehaviorTypesAppend(descriptors + [SenderRegistration], regs);
    BehaviorTypesAppend(descriptors, [SenderRegistration]);
    assert BehaviorTypes([SenderRegistration]) == [];
  }

  lemma {:induction false} NoBehaviorAmong(regs: seq<ServiceDescriptor>)
    requires forall d :: d in regs ==> d.service.RequestHandlerService?
    ensures BehaviorTypes(regs) == []
    decreases |regs|
  {
    if regs != [] {
      assert regs[|regs| - 1] in regs;
      NoBehaviorAmong(regs[..|regs| - 1]);
    }
  }

  lemma {:induction false} ResolveAppend(a: seq<ServiceDescriptor>, b: seq<ServiceDescriptor>, service: ServiceType)
    ensures Resolve(a + b, service) == if Resolve(b, service).Some? then Resolve(b, service) else Resolve(a, service)
    decreases |b|
  {
    if b == [] {
      assert a + b == a;
    } else {
      assert (a + b)[..|a + b| - 1] == a + b[..|b| - 1];
      ResolveAppend(a, b[..|b| - 1], service);
    }
  }

  /**
   * Among the handler registrations alone, IRequestHandler<TReq, TResp>
   * resolves to a scanned type implementing it, and to nothing when no
   * scanned type implements it.
   */
  lemma HandlerRegistrationResolves(types: seq<TypeDescriptor>, key: HandlerKey)
    ensures var r := Resolve(HandlerRegistrations(types), RequestHandlerService(key));
      && ((exists t :: t in types && RequestHandler(key) in GetInterfaces(t)) ==>
            r.Some? && exists t :: t in types && t.name == r.value && RequestHandler(key) in GetInterfaces(t))
      && ((forall t :: t in types ==> RequestHandler(key) !in GetInterfaces(t)) ==> r.None?)
  {
    var service := RequestHandlerService(key);
    var regs := HandlerRegistrations(types);
    var r := Resolve(regs, service);
    if exists t :: t in types && RequestHandler(key) in GetInterfaces(t) {
      var t :| t in types && RequestHandler(key) in GetInterfaces(t);
      var registered := ServiceDescriptor(service, t.name, Transient);
      HandlerRegisteredIffImplements(types, registered);
      var k :| 0 <= k < |regs| && regs[k] == registered;
      assert r.Some?;
      var i :| 0 <= i < |regs| && regs[i].service == service && regs[i].implementation == r.value;
      HandlerRegisteredIffImplements(types, regs[i]);
    } else if r.Some? {
      var i :| 0 <= i < |regs| && regs[i].service == service && regs[i].implementation == r.value;
      HandlerRegisteredIffImplements(types, regs[i]);
      assert false;
    }
  }

  /**
   * After AddMediatorAlt, IRequestHandler<TReq, TResp> resolves to a scanned
   * type implementing it when there is one; otherwise resolution is as before.
   */
  lemma HandlerResolvable(descriptors: seq<ServiceDescriptor>, types: seq<TypeDescriptor>, key: HandlerKey)
    ensures var r := Resolve(descriptors + [SenderRegistration] + HandlerRegistrations(types), RequestHandlerService(key));
      && ((exists t :: t in types && RequestHandler(key) in GetInterfaces(t)) ==>
            r.Some? && exists t :: t in types && t.name == r.value && RequestHandler(key) in GetInterfaces(t))
      && ((forall t :: t in types ==> RequestHandler(key) !in GetInterfaces(t)) ==>
            r == Resolve(descriptors, RequestHandlerService(key)))
  {
    var service := RequestHandlerService(key);
    var regs := HandlerRegistrations(types);
    ResolveAppend(descriptors + [SenderRegistration], regs, service);
    ResolveAppend(descriptors, [SenderRegistration], service);
    assert Resolve([SenderRegistration], service).None?;
    HandlerRegistrationResolves(types, key);
  }
}
