/**
 * JSON Patch (RFC 6902) applied to an AuthorForUpdate, as `patchDocument.ApplyTo(author,
 * ModelState)` is used by the PATCH handler. The operations run in document order on a plain
 * object with the two name members. An operation the object adapter cannot carry out records
 * one error under the object's type name and evaluation goes on with the next operation; an op
 * name that is not one of the six of RFC 6902 throws JsonPatchException.
 */
module JsonPatch {
  import opened Wrappers
  import opened Exceptions
  import Models
  import opened Mvc
  import Linq

  /** One operation of the document; `value` is None for a JSON null (or an absent value). */
  datatype Operation = Operation(op: string, path: string, from: string, value: Option<string>)

  /** OperationType: the op name parsed ignoring case, Invalid for any other name. */
  datatype OperationType = Add | Remove | Replace | Move | Copy | Test | Invalid

  datatype Property = FirstName | LastName

  /** The AuthorForUpdate being patched; a name is None once null has been written to it. */
  datatype Target = Target(firstName: Option<string>, lastName: Option<string>)

  /** What the document has done to the object so far, and the errors it has recorded. */
  type Patched = (Target, seq<ModelError>)

  function ToLowerAscii(c: char): char {
    if 'A' <= c <= 'Z' then (c as int + 32) as char else c
  }

  /** Ordinal comparison ignoring ASCII case. */
  predicate EqualsIgnoreCase(a: string, b: string) {
    |a| == |b| && forall i :: 0 <= i < |a| ==> ToLowerAscii(a[i]) == ToLowerAscii(b[i])
  }

  function OperationTypeOf(op: string): OperationType {
    if EqualsIgnoreCase(op, "add") then Add
    else if EqualsIgnoreCase(op, "remove") then Remove
    else if EqualsIgnoreCase(op, "replace") then Replace
    else if EqualsIgnoreCase(op, "move") then Move
    else if EqualsIgnoreCase(op, "copy") then Copy
    else if EqualsIgnoreCase(op, "test") then Test
    else Invalid
  }

  /** The member a path names: "/firstName" or "/lastName", matched without regard to case. */
  function TargetProperty(path: string): Option<Property> {
    if EqualsIgnoreCase(path, "/firstName") then Some(FirstName)
    else if EqualsIgnoreCase(path, "/lastName") then Some(LastName)
    else None
  }

  function Get(t: Target, p: Property): Option<string> {
    match p
    case FirstName => t.firstName
    case LastName => t.lastName
  }

  function Set(t: Target, p: Property, v: Option<string>): (r: Target)
    ensures Get(r, p) == v
    ensures forall q :: q != p ==> Get(r, q) == Get(t, q)
  {
    match p
    case FirstName => t.(firstName := v)
    case LastName => t.(lastName := v)
  }

  /** The object a patch starts from: the DTO's two names. */
  function FromDto(d: Models.AuthorForUpdate): Target {
    Target(Some(d.firstName), Some(d.lastName))
  }

  /** The key under which patch errors are recorded: the patched object's type name. */
  const ErrorKey := "AuthorForUpdate"

  function PathSegment(path: string): string {
    if |path| > 0 && path[0] == '/' then path[1..] else path
  }

  /** String.Format of a possibly null value: null prints as nothing. */
  function Shown(v: Option<string>): string {
    match v
    case Some(s) => s
    case None => ""
  }

  function InvalidOperation(op: string): Exception {
    PatchException("Invalid JsonPatch operation '" + op + "'.")
  }

  function NotFound(path: string): ModelError {
    ModelError(ErrorKey, "The target location specified by path segment '" + PathSegment(path) + "' was not found.")
  }

  function NotEqual(current: Option<string>, path: string, value: Option<string>): ModelError {
    ModelError(ErrorKey, "The current value '" + Shown(current) + "' at path '" + PathSegment(path)
      + "' is not equal to the test value '" + Shown(value) + "'.")
  }

  /** What one operation may record: no error or one, under the object's type name. */
  predicate Recorded(errors: seq<ModelError>) {
    |errors| <= 1 && forall e :: e in errors ==> e.key == ErrorKey
  }

  /** Add and replace on a plain object both assign the member the path names. */
  function Write(t: Target, path: string, v: Option<string>): (r: Patched)
    ensures Recorded(r.1) && (r.1 == [] <==> TargetProperty(path).Some?)
    ensures r.1 != [] ==> r.0 == t
  {
    match TargetProperty(path)
    case None => (t, [NotFound(path)])
    case Some(p) => (Set(t, p, v), [])
  }

  /** Move: the value `from` holds is removed there and added at `path`. */
  function MoveValue(t: Target, from: string, path: string): (r: Patched)
    ensures Recorded(r.1)
    ensures TargetProperty(from).None? ==> r.0 == t
  {
    match TargetProperty(from)
    case None => (t, [NotFound(from)])
    case Some(q) => Write(Set(t, q, None), path, Get(t, q))
  }

  /** Copy: the value `from` holds is added at `path`. */
  function CopyValue(t: Target, from: string, path: string): (r: Patched)
    ensures Recorded(r.1) && (r.1 != [] ==> r.0 == t)
  {
    match TargetProperty(from)
    case None => (t, [NotFound(from)])
    case Some(q) => Write(t, path, Get(t, q))
  }

  /** Test: the member `path` names must hold `value`; nothing is changed. */
  function TestValue(t: Target, path: string, value: Option<string>): (r: Patched)
    ensures Recorded(r.1) && r.0 == t
    ensures r.1 == [] <==> TargetProperty(path).Some? && Get(t, TargetProperty(path).value) == value
  {
    match TargetProperty(path)
    case None => (t, [NotFound(path)])
    case Some(p) => if Get(t, p) == value then (t, []) else (t, [NotEqual(Get(t, p), path, value)])
  }

  /** Add, replace and remove: operations that write a fixed value to the member `path` names. */
  predicate IsWrite(o: Operation) {
    var k := OperationTypeOf(o.op); k == Add || k == Replace || k == Remove
  }

  /**
   * One operation: what it does to the object and the errors it records, or the exception an
   * unknown op name throws. Remove writes null; move reads `from`, removes it, then adds the
   * value at `path`; copy adds the value `from` holds; test compares with the current value.
   */
  function ApplyOperation(t: Target, o: Operation): (r: Result<Patched, Exception>)
    ensures r.Failure? <==> OperationTypeOf(o.op) == Invalid
    ensures r.Failure? ==> r.error == InvalidOperation(o.op)
    ensures r.Success? ==> |r.value.1| <= 1 && forall e :: e in r.value.1 ==> e.key == ErrorKey
    ensures r.Success? && r.value.1 != [] && !(OperationTypeOf(o.op) == Move && TargetProperty(o.from).Some?)
      ==> r.value.0 == t
    ensures IsWrite(o) ==> (r.value.1 == [] <==> TargetProperty(o.path).Some?)
    ensures OperationTypeOf(o.op) == Test ==>
      r.value.0 == t && (r.value.1 == [] <==> TargetProperty(o.path).Some? && Get(t, TargetProperty(o.path).value) == o.value)
  {
    match OperationTypeOf(o.op)
    case Add => Success(Write(t, o.path, o.value))
    case Replace => Success(Write(t, o.path, o.value))
    case Remove => Success(Write(t, o.path, None))
    case Move => Success(MoveValue(t, o.from, o.path))
    case Copy => Success(CopyValue(t, o.from, o.path))
    case Test => Success(TestValue(t, o.path, o.value))
    case Invalid => Failure(InvalidOperation(o.op))
  }

  /** An operation whose op name is not one of the six of RFC 6902. */
  predicate IsInvalid(o: Operation) {
    OperationTypeOf(o.op) == Invalid
  }

  /** The position of the first operation with an unknown op name, if any. */
  function FirstInvalid(ops: seq<Operation>): Option<nat> {
    Linq.FirstIndexWhere(ops, IsInvalid)
  }

  /**
   * The document applied in order, every operation in turn: the patched object and every
   * recorded error, or the exception of the first operation with an unknown op name.
   */
  function ApplyTo(ops: seq<Operation>, t: Target): (r: Result<Patched, Exception>)
    ensures r.Failure? <==> FirstInvalid(ops).Some?
    ensures r.Failure? ==> r.error == InvalidOperation(ops[FirstInvalid(ops).value].op)
    ensures r.Success? ==> |r.value.1| <= |ops| && forall e :: e in r.value.1 ==> e.key == ErrorKey
    decreases |ops|
  {
    if ops == [] then Success((t, []))
    else
      match ApplyOperation(t, ops[0])
      case Failure(e) => Failure(e)
      case Success((t1, e1)) =>
        match ApplyTo(ops[1..], t1)
        case Failure(e) =>
          assert ops[1..][FirstInvalid(ops[1..]).value] == ops[FirstInvalid(ops[1..]).value + 1];
          Failure(e)
        case Success((t2, e2)) => Success((t2, e1 + e2))
  }

  /** The rest of a document applied after a result, with the errors of both kept in order. */
  function Then(r: Result<Patched, Exception>, ops: seq<Operation>): Result<Patched, Exception> {
    match r
    case Failure(e) => Failure(e)
    case Success((t1, e1)) =>
      match ApplyTo(ops, t1)
      case Failure(e) => Failure(e)
      case Success((t2, e2)) => Success((t2, e1 + e2))
  }

  /** Applying a concatenated document is applying its halves in turn; all errors are kept. */
  lemma {:induction false} ApplyToAppend(s: seq<Operation>, u: seq<Operation>, t: Target)
    ensures ApplyTo(s + u, t) == Then(ApplyTo(s, t), u)
    decreases |s|
  {
    if s == [] {
      assert s + u == u;
      match ApplyTo(u, t)
      case Failure(_) =>
      case Success((t2, e2)) => assert [] + e2 == e2;
    } else {
      assert (s + u)[0] == s[0];
      assert (s + u)[1..] == s[1..] + u;
      match ApplyOperation(t, s[0])
      case Failure(_) =>
      case Success((t1, e1)) =>
        ApplyToAppend(s[1..], u, t1);
        match ApplyTo(s[1..], t1)
        case Failure(_) =>
        case Success((t2, e2)) =>
          match ApplyTo(u, t2)
          case Failure(_) =>
          case Success((t3, e3)) =>
            assert e1 + (e2 + e3) == (e1 + e2) + e3;
    }
  }

  predicate Writes(ops: seq<Operation>) {
    forall i :: 0 <= i < |ops| ==> IsWrite(ops[i])
  }

  /** The value a write puts in place: remove writes null. */
  function Written(o: Operation): Option<string> {
    if OperationTypeOf(o.op) == Remove then None else o.value
  }

  /** The value the last write aimed at `p` puts in place, if any write aims at it. */
  function LastWrite(ops: seq<Operation>, p: Property): Option<Option<string>>
    decreases |ops|
  {
    if ops == [] then None
    else
      match LastWrite(ops[1..], p)
      case Some(v) => Some(v)
      case None => if TargetProperty(ops[0].path) == Some(p) then Some(Written(ops[0])) else None
  }

  /** What a document of writes does: each member takes its last written value. */
  function Overlay(ops: seq<Operation>, t: Target): Target {
    Target(
      match LastWrite(ops, FirstName) case Some(v) => v case None => t.firstName,
      match LastWrite(ops, LastName) case Some(v) => v case None => t.lastName)
  }

  /** The errors a document of writes records: one per operation whose path names no member. */
  function Unresolved(ops: seq<Operation>): seq<ModelError>
    decreases |ops|
  {
    if ops == [] then []
    else (if TargetProperty(ops[0].path).None? then [NotFound(ops[0].path)] else []) + Unresolved(ops[1..])
  }

  /**
   * A document of writes sets each member to the last value written to it, and records one
   * error for each operation whose path names no member, in document order.
   */
  lemma {:induction false} ApplyToOverlays(ops: seq<Operation>, t: Target)
    requires Writes(ops)
    ensures ApplyTo(ops, t) == Success((Overlay(ops, t), Unresolved(ops)))
    decreases |ops|
  {
    if ops != [] {
      assert IsWrite(ops[0]);
      assert Writes(ops[1..]) by {
        forall i | 0 <= i < |ops[1..]| ensures IsWrite(ops[1..][i]) {
          assert ops[1..][i] == ops[i + 1];
        }
      }
      var t1 := Write(t, ops[0].path, Written(ops[0])).0;
      assert ApplyOperation(t, ops[0]) == Success(Write(t, ops[0].path, Written(ops[0])));
      ApplyToOverlays(ops[1..], t1);
      assert Overlay(ops[1..], t1) == Overlay(ops, t);
    }
  }

  /** Overlaying the same writes again changes nothing. */
  lemma {:induction false} OverlayTwice(ops: seq<Operation>, t: Target)
    ensures Overlay(ops, Overlay(ops, t)) == Overlay(ops, t)
  {
  }

  /**
   * A document of writes applied twice leaves the object as applying it once does, and records
   * its errors twice; applied again to its own result it changes nothing.
   */
  lemma {:induction false} ApplyToIdempotent(ops: seq<Operation>, t: Target)
    requires Writes(ops)
    ensures ApplyTo(ops + ops, t).Success? && ApplyTo(ops, t).Success?
    ensures ApplyTo(ops + ops, t).value == (ApplyTo(ops, t).value.0, ApplyTo(ops, t).value.1 + ApplyTo(ops, t).value.1)
    ensures ApplyTo(ops, ApplyTo(ops, t).value.0) == ApplyTo(ops, t)
  {
    ApplyToAppend(ops, ops, t);
    ApplyToOverlays(ops, t);
    ApplyToOverlays(ops, Overlay(ops, t));
    OverlayTwice(ops, t);
  }

  /** A single write applied twice leaves the object as applying it once, its error twice. */
  lemma {:induction false} ReplaceTwice(o: Operation, t: Target)
    requires IsWrite(o)
    ensures ApplyTo([o, o], t).Success? && ApplyTo([o], t).Success?
    ensures ApplyTo([o, o], t).value == (ApplyTo([o], t).value.0, ApplyTo([o], t).value.1 + ApplyTo([o], t).value.1)
  {
    assert [o, o] == [o] + [o];
    ApplyToIdempotent([o], t);
  }

  /** The six op names are recognised as written in lower case. */
  lemma {:induction false} OperationNames()
    ensures OperationTypeOf("move") == Move && OperationTypeOf("copy") == Copy
    ensures OperationTypeOf("replace") == Replace
  {
    assert !EqualsIgnoreCase("move", "add") && !EqualsIgnoreCase("move", "remove");
    assert !EqualsIgnoreCase("move", "replace") && EqualsIgnoreCase("move", "move");
    assert !EqualsIgnoreCase("copy", "add") && !EqualsIgnoreCase("copy", "remove");
    assert !EqualsIgnoreCase("copy", "replace") && !EqualsIgnoreCase("copy", "move") by {
      assert ToLowerAscii("copy"[0]) != ToLowerAscii("move"[0]);
    }
    assert EqualsIgnoreCase("copy", "copy");
    assert !EqualsIgnoreCase("replace", "add") && !EqualsIgnoreCase("replace", "remove");
    assert EqualsIgnoreCase("replace", "replace");
  }

  /** The two member paths name their members. */
  lemma {:induction false} MemberPaths()
    ensures TargetProperty("/firstName") == Some(FirstName)
    ensures TargetProperty("/lastName") == Some(LastName)
  {
    assert EqualsIgnoreCase("/firstName", "/firstName");
    assert !EqualsIgnoreCase("/lastName", "/firstName") by {
      assert ToLowerAscii("/lastName"[1]) != ToLowerAscii("/firstName"[1]);
    }
    assert EqualsIgnoreCase("/lastName", "/lastName");
  }

  /** A move is not idempotent: moving a member a second time moves the null it left behind. */
  lemma {:induction false} MoveTwiceDiffers(t: Target)
    requires t.firstName.Some?
    ensures var o := Operation("move", "/lastName", "/firstName", None);
      && ApplyTo([o], t) == Success((Target(None, t.firstName), []))
      && ApplyTo([o, o], t) == Success((Target(None, None), []))
  {
    var o := Operation("move", "/lastName", "/firstName", None);
    OperationNames();
    MemberPaths();
    assert ApplyOperation(t, o) == Success((Target(None, t.firstName), []));
    assert ApplyOperation(Target(None, t.firstName), o) == Success((Target(None, None), []));
    assert [o][1..] == [];
    assert ApplyTo([o], t) == Success((Target(None, t.firstName), []));
    assert ApplyTo([o], Target(None, t.firstName)) == Success((Target(None, None), []));
    assert [o, o] == [o] + [o];
    ApplyToAppend([o], [o], t);
  }
}
