/** The receiver's validation loops, proved against the declarative verdict, and what that verdict means. */
module Validator {
  import opened Base
  import opened Protocol
  import opened Attributes
  import Config
  import Nlri
  import Values

  method ValidatePath(path: Bytes, width: nat) returns (ok: bool)
    ensures ok <==> PathOk(path, width)
  {
    var b := path;
    while b != []
      invariant PathOk(path, width) <==> PathOk(b, width)
      decreases |b|
    {
      if !(|b| >= 2 && 1 <= b[0] <= 4 && b[1] > 0) {
        return false;
      }
      var len := 2 + width * b[1] as int;
      if len > |b| {
        return false;
      }
      b := b[len..];
    }
    return true;
  }

  /** The checks of one attribute 14 or 15; `reach` reports whether it announces anything. */
  method CheckMultiprotocol(a: Attribute) returns (error: Option<ProtocolError>, reach: bool)
    requires Multiprotocol(a.kind)
    ensures error == MpError(a)
    ensures error.None? ==> (reach <==> ReachField(a) != [])
  {
    reach := false;
    var l := |a.data|;
    if !FlagsOk(a) || l < 3 {
      return Some(ProtocolError(3, 9, [])), false;
    }
    var afi := U16(a.data);
    var start := 3;
    if a.kind == 14 {
      if !(l >= 5 && a.data[3] as int + 5 <= l) {
        return Some(ProtocolError(3, 9, [])), false;
      }
      if a.data[2] == 1 && (afi == 1 || afi == 2) {
        if !(if afi == 2 then a.data[3] == 16 || a.data[3] == 32 else a.data[3] == 4) {
          return Some(ProtocolError(3, 9, [])), false;
        }
      }
      start := 5 + a.data[3] as int;
    }
    if a.data[2] == 1 && (afi == 1 || afi == 2) {
      var ok := Nlri.ValidateNlri(a.data[start..], if afi == 1 then 32 else 128);
      if !ok {
        return Some(ProtocolError(3, 10, [])), false;
      }
      reach := a.kind == 14 && start < l;
    }
    return None, reach;
  }

  /** The value rules, type by type: accepted exactly when the octets stand for a value of the type. */
  method CheckValue(a: Attribute, n: Negotiated) returns (ok: bool)
    ensures ok <==> Values.Denotes(a, n)
    ensures ok <==> ValueOk(a, n)
  {
    Values.ValueExactly(a, n);
    var l := |a.data|;
    match a.kind {
      case 1 => ok := l == 1 && a.data[0] <= 2;
      case 2 => ok := ValidatePath(a.data, if n.asn4 then 4 else 2);
      case 3 => ok := l == 4 && Config.ValidV4(a.data);
      case 4 => ok := l == 4;
      case 5 => ok := l == 4;
      case 9 => ok := l == 4;
      case 6 => ok := l == 0;
      case 7 => ok := l == if n.asn4 then 8 else 6;
      case 8 => ok := l != 0 && l % 4 == 0;
      case 10 => ok := l != 0 && l % 4 == 0;
      case 16 => ok := l != 0 && l % 8 == 0;
      case 17 =>
        ok := l >= 6 && l % 2 == 0;
        if ok {
          ok := ValidatePath(a.data, 4);
        }
      case 18 => ok := l == 8;
      case 32 => ok := l != 0 && l % 12 == 0;
      case _ => ok := true;
    }
  }

  lemma KindsStep(attrs: seq<Attribute>, i: nat)
    requires i < |attrs|
    ensures Kinds(attrs[..i + 1]) == Kinds(attrs[..i]) + {attrs[i].kind}
  {
    assert attrs[..i + 1] == attrs[..i] + [attrs[i]];
    assert attrs[i] in attrs[..i + 1];
    forall a | a in attrs[..i]
      ensures a in attrs[..i + 1]
    {
    }
  }

  lemma AnyReachStep(attrs: seq<Attribute>, i: nat)
    requires i < |attrs|
    ensures AnyReach(attrs[..i + 1]) <==> AnyReach(attrs[..i]) || ReachField(attrs[i]) != []
  {
    assert attrs[..i + 1] == attrs[..i] + [attrs[i]];
    assert attrs[i] in attrs[..i + 1];
    forall a | a in attrs[..i]
      ensures a in attrs[..i + 1]
    {
    }
  }

  /** One step of the walk: the attribute at the front is the next one of the split. */
  lemma ParseNext(b: Bytes, all: seq<Attribute>, i: nat, ending: Ending)
    requires i <= |all| && Parse(b) == (all[i..], ending) && HasAttribute(b)
    ensures i < |all| && all[i] == FirstAttribute(b)
    ensures Parse(b[AttributeSize(b)..]) == (all[i + 1..], ending)
    ensures Encodable(all[i]) && EncodeOne(all[i]) == b[..AttributeSize(b)]
  {
    EncodeOfFirst(b);
    assert all[i..][0] == all[i];
    assert all[i..][1..] == all[i + 1..];
    assert Parse(b).0[1..] == Parse(b[AttributeSize(b)..]).0;
  }

  lemma ParseStuck(b: Bytes, all: seq<Attribute>, i: nat, ending: Ending)
    requires i <= |all| && Parse(b) == (all[i..], ending) && !HasAttribute(b)
    ensures i == |all|
    ensures b != [] ==> ending == Broken(|b| >= 3 && Multiprotocol(b[1]))
  {
  }

  lemma FirstFatalIs(attrs: seq<Attribute>, i: nat, n: Negotiated)
    requires i <= |attrs|
    requires forall j :: 0 <= j < i ==> FatalAt(attrs, j, n).None?
    requires i < |attrs| ==> FatalAt(attrs, i, n).Some?
    ensures FirstFatal(attrs, 0, n) == i
  {
  }

  /** The handling of one attribute, given whether its type was seen before. */
  method CheckAttribute(a: Attribute, repeated: bool, n: Negotiated)
    returns (error: Option<ProtocolError>, severity: UpdateAction, reach: bool)
    requires Encodable(a)
    ensures error == if !repeated then Fatal(a, n)
                     else if Multiprotocol(a.kind) then Some(ProtocolError(3, 1, [])) else None
    ensures error.None? ==> severity == if repeated then AttributeDiscard else Severity(a, n)
    ensures error.None? ==> (reach <==> ReachField(a) != [])
  {
    error, severity, reach := None, Valid, false;
    if repeated {
      if Multiprotocol(a.kind) {
        error := Some(ProtocolError(3, 1, []));
      } else {
        severity := AttributeDiscard;
      }
    } else if DiscardedUnread(a.kind, n) {
      severity := AttributeDiscard;
    } else if Multiprotocol(a.kind) {
      error, reach := CheckMultiprotocol(a);
    } else if ExpectedClass(a.kind).None? && !OptionalBit(a.flags) {
      error := Some(ProtocolError(3, 2, EncodeOne(a)));
    } else {
      var ok := CheckValue(a, n);
      if !FlagsOk(a) || !ok {
        severity := if a.kind in {6, 7, 17, 18} then AttributeDiscard else TreatAsWithdraw;
      }
    }
  }

  /** The table of seen types marks exactly a set of types. */
  ghost predicate Marks(seen: seq<bool>, kinds: set<octet>)
    requires |seen| == 256
  {
    forall k: octet :: seen[k] <==> k in kinds
  }

  /** What the walk reports when it stops: the first fatal error, or the state at the end of the field. */
  ghost predicate Walked(attrs: seq<Attribute>, ending: Ending, n: Negotiated,
                         error: Option<ProtocolError>, seen: seq<bool>, reach: bool, action: UpdateAction)
    requires |seen| == 256
  {
    var i := FirstFatal(attrs, 0, n);
    if i < |attrs| then error == FatalAt(attrs, i, n)
    else if ending == Broken(true) then error == Some(ProtocolError(3, 9, []))
    else
      && error.None?
      && Marks(seen, Kinds(attrs))
      && (reach <==> AnyReach(attrs))
      && action == if ending.Broken? then TreatAsWithdraw else Worst(attrs, |attrs|, n)
  }

  /** What the walk knows after the first `i` attributes, none of them fatal. */
  ghost predicate Scanned(attrs: seq<Attribute>, i: nat, n: Negotiated, seen: seq<bool>, reach: bool,
                          action: UpdateAction)
    requires i <= |attrs| && |seen| == 256
  {
    && NoneFatal(attrs, i, n)
    && Marks(seen, Kinds(attrs[..i]))
    && (reach <==> AnyReach(attrs[..i]))
    && action == Worst(attrs, i, n)
  }

  ghost predicate NoneFatal(attrs: seq<Attribute>, i: nat, n: Negotiated)
    requires i <= |attrs|
  {
    forall j :: 0 <= j < i ==> FatalAt(attrs, j, n).None?
  }

  lemma NoneFatalNext(attrs: seq<Attribute>, i: nat, n: Negotiated)
    requires i < |attrs| && NoneFatal(attrs, i, n) && FatalAt(attrs, i, n).None?
    ensures NoneFatal(attrs, i + 1, n)
  {
  }

  lemma MarkOne(seen: seq<bool>, kinds: set<octet>, kind: octet)
    requires |seen| == 256 && Marks(seen, kinds)
    ensures Marks(seen[kind as int := true], kinds + {kind})
  {
  }

  lemma ScannedNext(attrs: seq<Attribute>, i: nat, n: Negotiated, seen: seq<bool>, reach: bool,
                    action: UpdateAction, severity: UpdateAction, announces: bool)
    requires i < |attrs| && |seen| == 256 && Scanned(attrs, i, n, seen, reach, action)
    requires FatalAt(attrs, i, n).None? && severity == SeverityAt(attrs, i, n)
    requires announces <==> ReachField(attrs[i]) != []
    ensures Scanned(attrs, i + 1, n, seen[attrs[i].kind as int := true], reach || announces,
                    Stronger(action, severity))
  {
    NoneFatalNext(attrs, i, n);
    KindsStep(attrs, i);
    MarkOne(seen, Kinds(attrs[..i]), attrs[i].kind);
    AnyReachStep(attrs, i);
    WorstNext(attrs, i, n);
  }

  lemma WorstNext(attrs: seq<Attribute>, i: nat, n: Negotiated)
    requires i < |attrs|
    ensures Worst(attrs, i + 1, n) == Stronger(Worst(attrs, i, n), SeverityAt(attrs, i, n))
  {
  }

  lemma FatalHere(attrs: seq<Attribute>, i: nat, n: Negotiated, seen: seq<bool>, reach: bool, action: UpdateAction,
                  error: Option<ProtocolError>)
    requires i < |attrs| && |seen| == 256 && Scanned(attrs, i, n, seen, reach, action)
    requires error.Some? && error == FatalAt(attrs, i, n)
    ensures FirstFatal(attrs, 0, n) == i
  {
    FirstFatalIs(attrs, i, n);
  }

  lemma ScannedAll(attrs: seq<Attribute>, n: Negotiated, seen: seq<bool>, reach: bool, action: UpdateAction)
    requires |seen| == 256 && Scanned(attrs, |attrs|, n, seen, reach, action)
    ensures FirstFatal(attrs, 0, n) == |attrs|
    ensures Marks(seen, Kinds(attrs))
    ensures (reach <==> AnyReach(attrs)) && action == Worst(attrs, |attrs|, n)
  {
    FirstFatalIs(attrs, |attrs|, n);
    assert attrs[..|attrs|] == attrs;
  }

  /** The program's walk over the attributes, with its `seen` table, reachability flag and action. */
  method WalkAttributes(field: Bytes, n: Negotiated)
    returns (error: Option<ProtocolError>, seen: seq<bool>, reach: bool, action: UpdateAction)
    ensures |seen| == 256
    ensures Walked(Parse(field).0, Parse(field).1, n, error, seen, reach, action)
  {
    var attrs := field;
    seen := seq(256, _ => false);
    error, reach, action := None, false, Valid;
    ghost var all, ending := Parse(field).0, Parse(field).1;
    ghost var i := 0;
    assert all[0..] == all;
    while attrs != []
      invariant i <= |all| && Parse(attrs) == (all[i..], ending)
      invariant |seen| == 256 && Scanned(all, i, n, seen, reach, action)
      decreases |attrs|
    {
      if !HasAttribute(attrs) {
        ParseStuck(attrs, all, i, ending);
        ScannedAll(all, n, seen, reach, action);
        if |attrs| >= 3 && Multiprotocol(attrs[1]) {
          return Some(ProtocolError(3, 9, [])), seen, reach, action;
        }
        return None, seen, reach, TreatAsWithdraw;
      }
      ParseNext(attrs, all, i, ending);
      var a := FirstAttribute(attrs);
      var problem, severity, announces := CheckAttribute(a, seen[a.kind], n);
      if problem.Some? {
        FatalHere(all, i, n, seen, reach, action, problem);
        return problem, seen, reach, action;
      }
      ScannedNext(all, i, n, seen, reach, action, severity, announces);
      seen := seen[a.kind as int := true];
      action := Stronger(action, severity);
      reach := reach || announces;
      attrs := attrs[AttributeSize(attrs)..];
      i := i + 1;
    }
    assert i == |all|;
    ScannedAll(all, n, seen, reach, action);
    error := None;
  }

  /** The closing checks of the program on what the walk left behind. */
  method Conclude(tail: Bytes, seen: seq<bool>, mpReach: bool, walked: UpdateAction, n: Negotiated,
                  ghost attrs: seq<Attribute>, ghost ending: Ending)
    returns (v: Verdict)
    requires |seen| == 256 && Walked(attrs, ending, n, None, seen, mpReach, walked)
    ensures v == Judge(tail, attrs, ending, n)
  {
    var action := walked;
    var reachable := tail != [] || mpReach;
    if reachable && (!seen[1] || !seen[2] || (n.internal && !seen[5])) {
      action := TreatAsWithdraw;
    }
    if tail != [] && !seen[3] {
      action := TreatAsWithdraw;
    }
    if action.TreatAsWithdraw? && !reachable {
      return Reject(ProtocolError(3, 1, []));
    }
    return Accept(action);
  }

  /** The program's validator computes exactly the declarative verdict. */
  method ValidateUpdate(b: Bytes, n: Negotiated) returns (v: Verdict)
    ensures v == UpdateVerdict(b, n)
  {
    if |b| < 4 {
      return Reject(ProtocolError(3, 1, []));
    }
    var w := U16(b);
    if w + 4 > |b| {
      return Reject(ProtocolError(3, 1, []));
    }
    var ok := Nlri.ValidateNlri(b[2..2 + w], 32);
    if !ok {
      return Reject(ProtocolError(3, 10, []));
    }
    var a := U16(b[2 + w..]);
    if w + a + 4 > |b| {
      return Reject(ProtocolError(3, 1, []));
    }
    var f := Split(b);
    ok := Nlri.ValidateNlri(f.tail, 32);
    if !ok {
      return Reject(ProtocolError(3, 10, []));
    }
    var error, seen, mpReach, action := WalkAttributes(f.attributes, n);
    if error.Some? {
      return Reject(error.value);
    }
    v := Conclude(f.tail, seen, mpReach, action, n, Parse(f.attributes).0, Parse(f.attributes).1);
  }
}
