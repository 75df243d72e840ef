/**
 * The crate root (src/lib.rs): the error type every fallible entry point
 * returns, and the closed string-keyed enumerations that GIR attributes
 * take their values from. Each enumeration accepts exactly its listed
 * literals, case-sensitively, and prints each variant back as its literal;
 * the derived order is the declaration order.
 */
module Lib {
  import opened Wrappers

  /** An `std::io::Error`; its operating-system wording is not modelled. */
  datatype IoError = NotFound | IoFailure(message: string)

  /** The text an I/O error displays: the kind's description, or the message it carries. */
  function IoText(e: IoError): string
  {
    match e
    case NotFound => "entity not found"
    case IoFailure(m) => m
  }

  datatype ParserError = IO(io: IoError) | Xml(message: string)

  /** `From<std::io::Error>`: I/O failures are wrapped, never turned into parse failures. */
  function FromIo(e: IoError): (r: ParserError)
    ensures r.IO? && r.io == e
  {
    IO(e)
  }

  const IoPrefix := "I/O operation failed "
  const XmlPrefix := "Failed to parse xml file: "

  /** `Display`: a fixed prefix naming the kind of failure, then the underlying text. */
  function Describe(e: ParserError): (r: string)
    ensures e.IO? ==> r == IoPrefix + IoText(e.io)
    ensures e.Xml? ==> r == XmlPrefix + e.message
  {
    match e
    case IO(io) => IoPrefix + IoText(io)
    case Xml(m) => XmlPrefix + m
  }

  /** The two prefixes differ in their first character, so the text tells which kind of failure it was. */
  lemma DescribeTellsKind(e: ParserError, f: ParserError)
    requires Describe(e) == Describe(f)
    ensures e.IO? <==> f.IO?
  {
    assert Describe(e)[0] == (if e.IO? then 'I' else 'F');
    assert Describe(f)[0] == (if f.IO? then 'I' else 'F');
  }

  // ---------------------------------------------------------------- Stability

  datatype Stability = Stable | Unstable | Private

  function StabilityLiteral(s: Stability): string
  {
    match s
    case Stable => "Stable"
    case Unstable => "Unstable"
    case Private => "Private"
  }

  function ParseStability(s: string): (r: Result<Stability, string>)
    ensures r.Ok? <==> s in {"Stable", "Unstable", "Private"}
    ensures r.Ok? ==> StabilityLiteral(r.value) == s
  {
    match s
    case "Stable" => Ok(Stable)
    case "Unstable" => Ok(Unstable)
    case "Private" => Ok(Private)
    case _ => Err("Invalid Stability: " + s)
  }

  lemma StabilityRoundTrip(x: Stability)
    ensures ParseStability(StabilityLiteral(x)) == Ok(x)
  {
  }

  function StabilityRank(s: Stability): nat
  {
    match s
    case Stable => 0
    case Unstable => 1
    case Private => 2
  }

  // ------------------------------------------------------ TransferOwnership

  datatype TransferOwnership = TransferNone | Container | Full
  {
    predicate IsNone() { TransferNone? }
    predicate IsContainer() { Container? }
    predicate IsFull() { Full? }
  }

  function TransferLiteral(t: TransferOwnership): string
  {
    match t
    case TransferNone => "none"
    case Container => "container"
    case Full => "full"
  }

  function ParseTransfer(s: string): (r: Result<TransferOwnership, string>)
    ensures r.Ok? <==> s in {"none", "container", "full"}
    ensures r.Ok? ==> TransferLiteral(r.value) == s
  {
    match s
    case "none" => Ok(TransferNone)
    case "container" => Ok(Container)
    case "full" => Ok(Full)
    case _ => Err("Invalid TransferOwnership: " + s)
  }

  lemma TransferRoundTrip(x: TransferOwnership)
    ensures ParseTransfer(TransferLiteral(x)) == Ok(x)
  {
  }

  /** Exactly one of the `is_*` predicates holds of every value. */
  lemma TransferOneHot(x: TransferOwnership)
    ensures x.IsNone() || x.IsContainer() || x.IsFull()
    ensures !(x.IsNone() && x.IsContainer()) && !(x.IsNone() && x.IsFull()) && !(x.IsContainer() && x.IsFull())
  {
  }

  function TransferRank(t: TransferOwnership): nat
  {
    match t
    case TransferNone => 0
    case Container => 1
    case Full => 2
  }

  // ---------------------------------------------------------- FunctionScope

  datatype FunctionScope = Call | Notified | Async | Forever
  {
    predicate IsCall() { Call? }
    predicate IsNotified() { Notified? }
    predicate IsAsync() { Async? }
    predicate IsForever() { Forever? }
  }

  function ScopeLiteral(s: FunctionScope): string
  {
    match s
    case Call => "call"
    case Notified => "notified"
    case Async => "async"
    case Forever => "forever"
  }

  function ParseScope(s: string): (r: Result<FunctionScope, string>)
    ensures r.Ok? <==> s in {"call", "notified", "async", "forever"}
    ensures r.Ok? ==> ScopeLiteral(r.value) == s
  {
    match s
    case "call" => Ok(Call)
    case "notified" => Ok(Notified)
    case "async" => Ok(Async)
    case "forever" => Ok(Forever)
    case _ => Err("Invalid FunctionScope: " + s)
  }

  lemma ScopeRoundTrip(x: FunctionScope)
    ensures ParseScope(ScopeLiteral(x)) == Ok(x)
  {
  }

  /** Exactly one of the `is_*` predicates holds of every value. */
  lemma ScopeOneHot(x: FunctionScope)
    ensures x.IsCall() || x.IsNotified() || x.IsAsync() || x.IsForever()
    ensures x.IsCall() ==> !x.IsNotified() && !x.IsAsync() && !x.IsForever()
    ensures x.IsNotified() ==> !x.IsAsync() && !x.IsForever()
    ensures x.IsAsync() ==> !x.IsForever()
  {
  }

  function ScopeRank(s: FunctionScope): nat
  {
    match s
    case Call => 0
    case Notified => 1
    case Async => 2
    case Forever => 3
  }

  // --------------------------------------------------------- SignalEmission

  datatype SignalEmission = First | Last | Cleanup

  function EmissionLiteral(s: SignalEmission): string
  {
    match s
    case First => "first"
    case Last => "last"
    case Cleanup => "cleanup"
  }

  function ParseEmission(s: string): (r: Result<SignalEmission, string>)
    ensures r.Ok? <==> s in {"first", "last", "cleanup"}
    ensures r.Ok? ==> EmissionLiteral(r.value) == s
  {
    match s
    case "first" => Ok(First)
    case "last" => Ok(Last)
    case "cleanup" => Ok(Cleanup)
    case _ => Err("Invalid SignalEmission: " + s)
  }

  lemma EmissionRoundTrip(x: SignalEmission)
    ensures ParseEmission(EmissionLiteral(x)) == Ok(x)
  {
  }

  function EmissionRank(s: SignalEmission): nat
  {
    match s
    case First => 0
    case Last => 1
    case Cleanup => 2
  }

  /** The derived orders follow declaration order, and distinct variants never tie. */
  lemma DeclarationOrder()
    ensures StabilityRank(Stable) < StabilityRank(Unstable) < StabilityRank(Private)
    ensures TransferRank(TransferNone) < TransferRank(Container) < TransferRank(Full)
    ensures ScopeRank(Call) < ScopeRank(Notified) < ScopeRank(Async) < ScopeRank(Forever)
    ensures EmissionRank(First) < EmissionRank(Last) < EmissionRank(Cleanup)
    ensures forall a, b :: StabilityRank(a) == StabilityRank(b) ==> a == b
    ensures forall a, b :: TransferRank(a) == TransferRank(b) ==> a == b
    ensures forall a, b :: ScopeRank(a) == ScopeRank(b) ==> a == b
    ensures forall a, b :: EmissionRank(a) == EmissionRank(b) ==> a == b
  {
  }
}
