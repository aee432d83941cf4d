/**
 * Permission classes (core/permissions.py): three fixed decision tables over
 * the requesting user, and `CustomPermissions`, a registry of permission
 * classes consulted in registration order that stops at the first refusal.
 */
module Permissions {
  import opened Common
  import opened Users

  /** What a permission check does: grant, refuse, or raise `AuthenticationFailed(detail)`. */
  datatype Decision = Allow | Deny | Raise(detail: string)

  /** The detail of `AuthenticationFailed()` raised without an argument (the REST framework default). */
  const DEFAULT_AUTH_FAILED := "Incorrect authentication credentials."
  const MISSING_SUPERUSER := "Unauthorized: missing superuser status"
  const DEFAULT_MESSAGE := "Unable to perform the requested action"

  // ---------------------------------------------------------------------
  // Fixed permission classes. `user` is the authenticated user of the
  // request, or None for no user or an anonymous one.
  // ---------------------------------------------------------------------

  /** `EndUserOnly.has_permission`: end-users pass, admins raise, nobody is refused. */
  function EndUserOnly(user: Option<User>): (r: Decision)
    ensures r == Deny <==> user.None?
    ensures r == Allow <==> user.Some? && !IsAdmin(user.value)
    ensures r.Raise? <==> user.Some? && IsAdmin(user.value)
    ensures r.Raise? ==> r.detail == DEFAULT_AUTH_FAILED
  {
    if user.None? then Deny
    else if IsAdmin(user.value) then Raise(DEFAULT_AUTH_FAILED)
    else Allow
  }

  /** `StaffOnly.has_permission`: staff pass, other users raise, nobody is refused. */
  function StaffOnly(user: Option<User>): (r: Decision)
    ensures r == Deny <==> user.None?
    ensures r == Allow <==> user.Some? && user.value.isStaff
    ensures r.Raise? <==> user.Some? && !user.value.isStaff
    ensures r.Raise? ==> r.detail == DEFAULT_AUTH_FAILED
  {
    if user.None? then Deny
    else if user.value.isStaff then Allow
    else Raise(DEFAULT_AUTH_FAILED)
  }

  /** `SuperUserOnly.has_permission`: staff superusers pass, other users raise with their own detail. */
  function SuperUserOnly(user: Option<User>): (r: Decision)
    ensures r == Deny <==> user.None?
    ensures r == Allow <==> user.Some? && user.value.isStaff && user.value.isSuperuser
    ensures r.Raise? <==> user.Some? && !(user.value.isStaff && user.value.isSuperuser)
    ensures r.Raise? ==> r.detail == MISSING_SUPERUSER
  {
    if user.None? then Deny
    else if user.value.isStaff && user.value.isSuperuser then Allow
    else Raise(MISSING_SUPERUSER)
  }

  /** No user passes both `EndUserOnly` and `StaffOnly`. */
  lemma EndUserAndStaffExclusive(user: Option<User>)
    ensures !(EndUserOnly(user) == Allow && StaffOnly(user) == Allow)
  {
    if user.Some? && user.value.isStaff {
      assert IsAdmin(user.value);
    }
  }

  /** Whoever passes `SuperUserOnly` passes `StaffOnly` and is refused by `EndUserOnly`. */
  lemma SuperUserIsStaff(user: Option<User>)
    requires SuperUserOnly(user) == Allow
    ensures StaffOnly(user) == Allow && EndUserOnly(user).Raise?
  {
  }

  // ---------------------------------------------------------------------
  // Registered permission classes
  // ---------------------------------------------------------------------

  /**
   * A registered permission class: whether it has a callable
   * `has_permission` and a callable `has_object_permission`, and its
   * `message` attribute if it has one.
   */
  datatype PermClass = PermClass(name: string, hasPermission: bool, hasObjectPermission: bool, message: Option<string>)

  /** The outcome of consulting the registry. */
  datatype Verdict = Granted | Refused | Raised(detail: string)

  /** The message a refusal leaves: the class's own, else the default. */
  function MessageOf(c: PermClass): (m: string)
    ensures c.message.Some? ==> m == c.message.value
    ensures c.message.None? ==> m == DEFAULT_MESSAGE
  {
    if c.message.Some? then c.message.value else DEFAULT_MESSAGE
  }

  /** The position of the first class that does not grant, in registration order. */
  function FirstFailure(entries: seq<PermClass>, decide: PermClass -> Decision): (r: Option<nat>)
    ensures r.Some? ==> r.value < |entries| && decide(entries[r.value]) != Allow
    ensures r.Some? ==> forall j :: 0 <= j < r.value ==> decide(entries[j]) == Allow
    ensures r.None? <==> forall j :: 0 <= j < |entries| ==> decide(entries[j]) == Allow
  {
    FirstIndex(entries, (c: PermClass) => decide(c) != Allow)
  }

  /** The verdict of the registry: that of the first class that does not grant. */
  function Outcome(entries: seq<PermClass>, decide: PermClass -> Decision): (v: Verdict)
    ensures v == Granted <==> forall j :: 0 <= j < |entries| ==> decide(entries[j]) == Allow
  {
    match FirstFailure(entries, decide)
    case None => Granted
    case Some(i) => if decide(entries[i]) == Deny then Refused else Raised(decide(entries[i]).detail)
  }

  /** Every class that refuses or raises, and is registered, makes the verdict something other than a grant. */
  lemma RegisteredFailureBlocks(entries: seq<PermClass>, decide: PermClass -> Decision, c: PermClass)
    requires c in entries && decide(c) != Allow
    ensures Outcome(entries, decide) != Granted
  {
  }

  /** Appending a class is consulted only when everything before it grants. */
  lemma {:induction false} OutcomeOfAppend(entries: seq<PermClass>, c: PermClass, decide: PermClass -> Decision)
    ensures Outcome(entries + [c], decide) ==
              if Outcome(entries, decide) == Granted then Outcome([c], decide) else Outcome(entries, decide)
  {
    var s := entries + [c];
    match FirstFailure(entries, decide)
    case None =>
      assert forall j :: 0 <= j < |entries| ==> s[j] == entries[j];
      if decide(c) == Allow {
        assert forall j :: 0 <= j < |s| ==> decide(s[j]) == Allow;
      } else {
        assert s[|entries|] == c;
        assert FirstFailure(s, decide) == Some(|entries|);
        assert FirstFailure([c], decide) == Some(0);
      }
    case Some(i) =>
      assert s[i] == entries[i];
      assert forall j :: 0 <= j < i ==> s[j] == entries[j];
      FirstIndexPrefix(entries, [c], (x: PermClass) => decide(x) != Allow, i);
  }

  /** The first match found in a sequence is the first match in any extension of it. */
  lemma {:induction false} FirstIndexPrefix<T>(s: seq<T>, t: seq<T>, p: T -> bool, i: nat)
    requires FirstIndex(s, p) == Some(i)
    ensures FirstIndex(s + t, p) == Some(i)
  {
    if !p(s[0]) {
      assert (s + t)[1..] == s[1..] + t;
      FirstIndexPrefix(s[1..], t, p, i - 1);
    }
  }

  /** Removing a class that grants leaves the verdict as it was. */
  lemma {:induction false} UnregisterGrantingKeepsOutcome(entries: seq<PermClass>, c: PermClass, decide: PermClass -> Decision)
    requires decide(c) == Allow
    ensures Outcome(Without(entries, c), decide) == Outcome(entries, decide)
  {
    if |entries| > 0 {
      UnregisterGrantingKeepsOutcome(entries[1..], c, decide);
      var rest := Without(entries[1..], c);
      if entries[0] == c {
        assert Without(entries, c) == rest;
        OutcomeOfHead(entries, decide);
      } else {
        var w := [entries[0]] + rest;
        assert Without(entries, c) == w;
        assert w[1..] == rest;
        OutcomeOfHead(entries, decide);
        OutcomeOfHead(w, decide);
      }
    }
  }

  /** A first class that grants passes the decision on; one that does not decides it. */
  lemma OutcomeOfHead(entries: seq<PermClass>, decide: PermClass -> Decision)
    requires |entries| > 0
    ensures decide(entries[0]) == Allow ==> Outcome(entries, decide) == Outcome(entries[1..], decide)
    ensures decide(entries[0]) != Allow ==>
              Outcome(entries, decide) ==
                if decide(entries[0]) == Deny then Refused else Raised(decide(entries[0]).detail)
  {
    var p := (x: PermClass) => decide(x) != Allow;
    if decide(entries[0]) == Allow {
      assert FirstIndex(entries, p) == (match FirstIndex(entries[1..], p) case None => None case Some(k) => Some(k + 1));
    } else {
      assert FirstIndex(entries, p) == Some(0);
    }
  }

  /** `entries` without every class equal to `c`, in the original order. */
  function Without(entries: seq<PermClass>, c: PermClass): (r: seq<PermClass>)
    ensures c !in r
  {
    var r := Filter(entries, (x: PermClass) => x != c);
    assert forall j :: 0 <= j < |r| ==> r[j] != c;
    r
  }

  /** Removing a class that was not there undoes registering it. */
  lemma UnregisterUndoesRegister(entries: seq<PermClass>, c: PermClass)
    requires c !in entries
    ensures Without(entries + [c], c) == entries
  {
    var p := (x: PermClass) => x != c;
    FilterAppend(entries, [c], p);
    FilterKeepsAll(entries, p);
    assert Filter([c], p) == [];
  }

  /** Removing keeps every other class and keeps nothing new. */
  lemma UnregisterKeepsOthers(entries: seq<PermClass>, c: PermClass)
    ensures forall x :: x in Without(entries, c) <==> x in entries && x != c
  {
    var p := (x: PermClass) => x != c;
    FilterMembers(entries, p);
    forall x | x in entries && x != c ensures x in Without(entries, c) {
      var j :| 0 <= j < |entries| && entries[j] == x;
    }
  }

  /**
   * One consultation of the registry: walks the classes in registration
   * order and stops at the first that does not grant. Changes nothing.
   */
  method Evaluate(entries: seq<PermClass>, decide: PermClass -> Decision) returns (v: Verdict, at: nat)
    ensures v == Outcome(entries, decide)
    ensures v != Granted <==> at < |entries|
    ensures at < |entries| ==> FirstFailure(entries, decide) == Some(at)
  {
    at := 0;
    while at < |entries|
      invariant at <= |entries|
      invariant forall j :: 0 <= j < at ==> decide(entries[j]) == Allow
    {
      var d := decide(entries[at]);
      if d != Allow {
        assert FirstFailure(entries, decide) == Some(at);
        v := if d == Deny then Refused else Raised(d.detail);
        return;
      }
      at := at + 1;
    }
    v := Granted;
  }

  /**
   * `CustomPermissions`: the class-level tuples of registered classes and
   * the `message` of the instance that consults them.
   */
  class CustomPermissions {
    var hasPermissionInstances: seq<PermClass>
    var hasObjectPermissionInstances: seq<PermClass>
    var message: string

    constructor ()
      ensures hasPermissionInstances == [] && hasObjectPermissionInstances == []
      ensures message == DEFAULT_MESSAGE
    {
      hasPermissionInstances := [];
      hasObjectPermissionInstances := [];
      message := DEFAULT_MESSAGE;
    }

    /** `register`: onto the has-permission list if it can answer that, else onto the object list, never both. */
    method Register(c: PermClass)
      modifies this
      ensures hasPermissionInstances == old(hasPermissionInstances) + (if c.hasPermission then [c] else [])
      ensures hasObjectPermissionInstances ==
                old(hasObjectPermissionInstances) + (if !c.hasPermission && c.hasObjectPermission then [c] else [])
      ensures message == old(message)
    {
      if c.hasPermission {
        hasPermissionInstances := hasPermissionInstances + [c];
      } else if c.hasObjectPermission {
        hasObjectPermissionInstances := hasObjectPermissionInstances + [c];
      }
    }

    /** `unregister`, with both lists kept as sequences: every entry equal to `c` goes from both. */
    method Unregister(c: PermClass)
      modifies this
      ensures hasPermissionInstances == Without(old(hasPermissionInstances), c)
      ensures hasObjectPermissionInstances == Without(old(hasObjectPermissionInstances), c)
      ensures message == old(message)
    {
      hasPermissionInstances := Without(hasPermissionInstances, c);
      hasObjectPermissionInstances := Without(hasObjectPermissionInstances, c);
    }

    /** A consultation of one list: a refusal sets `message`; a grant or a raise leaves it. */
    method Consult(entries: seq<PermClass>, decide: PermClass -> Decision) returns (v: Verdict)
      modifies this
      ensures v == Outcome(entries, decide)
      ensures v == Refused ==>
                FirstFailure(entries, decide).Some? && message == MessageOf(entries[FirstFailure(entries, decide).value])
      ensures v != Refused ==> message == old(message)
      ensures hasPermissionInstances == old(hasPermissionInstances)
      ensures hasObjectPermissionInstances == old(hasObjectPermissionInstances)
    {
      var at;
      v, at := Evaluate(entries, decide);
      if v == Refused {
        message := MessageOf(entries[at]);
      }
    }

    /** `has_permission`: `decide` answers `has_permission(request, view)` for each class. */
    method HasPermission(decide: PermClass -> Decision) returns (v: Verdict)
      modifies this
      ensures v == Outcome(old(hasPermissionInstances), decide)
      ensures v == Refused ==>
                && FirstFailure(hasPermissionInstances, decide).Some?
                && message == MessageOf(hasPermissionInstances[FirstFailure(hasPermissionInstances, decide).value])
      ensures v != Refused ==> message == old(message)
      ensures hasPermissionInstances == old(hasPermissionInstances)
      ensures hasObjectPermissionInstances == old(hasObjectPermissionInstances)
    {
      v := Consult(hasPermissionInstances, decide);
    }

    /** `has_object_permission`: the same walk over the object list. */
    method HasObjectPermission(decide: PermClass -> Decision) returns (v: Verdict)
      modifies this
      ensures v == Outcome(old(hasObjectPermissionInstances), decide)
      ensures v == Refused ==>
                && FirstFailure(hasObjectPermissionInstances, decide).Some?
                && message == MessageOf(hasObjectPermissionInstances[FirstFailure(hasObjectPermissionInstances, decide).value])
      ensures v != Refused ==> message == old(message)
      ensures hasPermissionInstances == old(hasPermissionInstances)
      ensures hasObjectPermissionInstances == old(hasObjectPermissionInstances)
    {
      v := Consult(hasObjectPermissionInstances, decide);
    }
  }

  /** With sequences, unregistering another class never lifts a registered refusal. */
  lemma UnregisterOtherKeepsRefusal(entries: seq<PermClass>, c: PermClass, d: PermClass, decide: PermClass -> Decision)
    requires c in entries && c != d && decide(c) != Allow
    ensures Outcome(Without(entries, d), decide) != Granted
  {
    UnregisterKeepsOthers(entries, d);
  }

  // ---------------------------------------------------------------------
  // `unregister` as written: the lists become one-shot generators
  // ---------------------------------------------------------------------

  /** A class-level list as the code leaves it: a tuple, or a generator with what it has yet to yield. */
  datatype Entries = Tuple(items: seq<PermClass>) | Generator(pending: seq<PermClass>)

  function Remaining(e: Entries): (s: seq<PermClass>)
    ensures e.Tuple? ==> s == e.items
    ensures e.Generator? ==> s == e.pending
  {
    if e.Tuple? then e.items else e.pending
  }

  /** `unregister` as written: a generator over the entries other than `c`. */
  function UnregisterAsWritten(e: Entries, c: PermClass): (r: Entries)
    ensures r.Generator? && c !in r.pending
  {
    Generator(Without(Remaining(e), c))
  }

  /** `+= (c,)` as written: a tuple grows; a generator raises `TypeError` (None). */
  function AppendAsWritten(e: Entries, c: PermClass): (r: Option<Entries>)
    ensures r.None? <==> e.Generator?
    ensures r.Some? ==> r.value == Tuple(e.items + [c])
  {
    if e.Generator? then None else Some(Tuple(e.items + [c]))
  }

  /**
   * What the loop leaves in a generator: it draws classes one at a time and
   * stops after the first that does not grant, or at the end.
   */
  function DrawPending(pending: seq<PermClass>, decide: PermClass -> Decision): (rest: seq<PermClass>)
    ensures |rest| <= |pending|
    ensures |pending| > 0 ==> |rest| < |pending|
  {
    if |pending| == 0 then []
    else if decide(pending[0]) != Allow then pending[1..]
    else DrawPending(pending[1..], decide)
  }

  /** The loop stops right after the first failing class, and drains the generator when none fails. */
  lemma {:induction false} DrawPendingStopsAfterFailure(pending: seq<PermClass>, decide: PermClass -> Decision)
    ensures FirstFailure(pending, decide).None? ==> DrawPending(pending, decide) == []
    ensures FirstFailure(pending, decide).Some? ==>
              DrawPending(pending, decide) == pending[FirstFailure(pending, decide).value + 1..]
  {
    if |pending| > 0 && decide(pending[0]) == Allow {
      var tail := pending[1..];
      DrawPendingStopsAfterFailure(tail, decide);
      var i := FirstFailure(pending, decide);
      var t := FirstFailure(tail, decide);
      assert forall j :: 0 <= j < |tail| ==> tail[j] == pending[j + 1];
      if i.Some? {
        assert decide(tail[i.value - 1]) != Allow;
        assert t.Some? && t.value == i.value - 1;
        assert tail[i.value - 1 + 1..] == pending[i.value + 1..];
      } else {
        assert t.None?;
      }
    }
  }

  /** What is left of the list as written after one request: a tuple stays, a generator loses what the loop drew. */
  function DrawnAsWritten(e: Entries, decide: PermClass -> Decision): (r: Entries)
    ensures e.Tuple? ==> r == e
    ensures e.Generator? ==> r.Generator? && |r.pending| <= |e.pending|
    ensures e.Generator? && |e.pending| > 0 ==> |r.pending| < |e.pending|
  {
    if e.Tuple? then e else Generator(DrawPending(e.pending, decide))
  }

  /** One `has_permission` over the list as written: the verdict, and the list afterwards. */
  function ConsultAsWritten(e: Entries, decide: PermClass -> Decision): (r: (Verdict, Entries))
    ensures r.0 == Outcome(Remaining(e), decide)
    ensures e.Tuple? ==> r.1 == e
    ensures e.Generator? && r.0 == Granted ==> r.1 == Generator([])
    ensures e.Generator? ==> r.1.Generator? && |r.1.pending| <= |e.pending|
  {
    DrawPendingStopsAfterFailure(Remaining(e), decide);
    (Outcome(Remaining(e), decide), DrawnAsWritten(e, decide))
  }

  /**
   * As written, a refusal can hold once: when the denying class is the only
   * one registered, unregistering any other class makes the first request
   * refused and the second granted.
   */
  lemma GeneratorGrantsSecondRequest(c: PermClass, d: PermClass, decide: PermClass -> Decision)
    requires c != d && decide(c) == Deny
    ensures var e := UnregisterAsWritten(Tuple([c]), d);
            var first := ConsultAsWritten(e, decide);
            var second := ConsultAsWritten(first.1, decide);
            first.0 == Refused && second.0 == Granted
  {
    var e := UnregisterAsWritten(Tuple([c]), d);
    var p := (x: PermClass) => x != d;
    FilterKeepsAll([c], p);
    assert e.pending == [c];
    assert FirstFailure([c], decide) == Some(0);
    assert ConsultAsWritten(e, decide).1 == Generator([]);
  }

  /**
   * As written, a request that is not granted leaves the generator holding
   * only the classes after the first failing one.
   */
  lemma GeneratorSkipsPastFailure(e: Entries, decide: PermClass -> Decision)
    requires e.Generator? && ConsultAsWritten(e, decide).0 != Granted
    ensures var i := FirstFailure(e.pending, decide);
            i.Some? && ConsultAsWritten(e, decide).1 == Generator(e.pending[i.value + 1..])
  {
    DrawPendingStopsAfterFailure(e.pending, decide);
  }

  /** The list as written as it stands before request `j` (counting from 0) of a run of requests. */
  function StandingAsWritten(e: Entries, decide: PermClass -> Decision, j: nat): (r: Entries)
    ensures e.Tuple? ==> r == e
    ensures e.Generator? ==> r.Generator? && |r.pending| <= |e.pending|
  {
    if j == 0 then e else DrawnAsWritten(StandingAsWritten(e, decide, j - 1), decide)
  }

  /** The verdict of request `j` of a run: over a tuple, always that of the first. */
  function VerdictAsWritten(e: Entries, decide: PermClass -> Decision, j: nat): (v: Verdict)
    ensures e.Tuple? ==> v == Outcome(e.items, decide)
    ensures j == 0 ==> v == Outcome(Remaining(e), decide)
  {
    Outcome(Remaining(StandingAsWritten(e, decide, j)), decide)
  }

  /** Request `k` leaves the list that request `k + 1` finds. */
  lemma StandingAsWrittenStep(e: Entries, decide: PermClass -> Decision, k: nat)
    ensures StandingAsWritten(e, decide, k + 1) == DrawnAsWritten(StandingAsWritten(e, decide, k), decide)
  {
  }

  /** A request that a generator grants draws every class from it. */
  lemma GrantExhaustsGenerator(e: Entries, decide: PermClass -> Decision)
    requires e.Generator? && Outcome(e.pending, decide) == Granted
    ensures DrawnAsWritten(e, decide) == Generator([])
  {
    DrawPendingStopsAfterFailure(e.pending, decide);
  }

  /** Each request draws at least one class from a generator that still holds some. */
  lemma {:induction false} GeneratorDrains(e: Entries, decide: PermClass -> Decision, j: nat)
    requires e.Generator?
    ensures var r := StandingAsWritten(e, decide, j);
            |r.pending| <= if j < |e.pending| then |e.pending| - j else 0
  {
    if j > 0 {
      GeneratorDrains(e, decide, j - 1);
    }
  }

  /**
   * As written, a generator of `m` classes refuses or raises on at most its
   * first `m` requests: from request `m` on, every request is granted.
   */
  lemma GeneratorGrantsAfterDrain(e: Entries, decide: PermClass -> Decision, j: nat)
    requires e.Generator? && |e.pending| <= j
    ensures VerdictAsWritten(e, decide, j) == Granted
  {
    GeneratorDrains(e, decide, j);
  }

  /** As written, once a request over a generator is granted, every later one is. */
  lemma GeneratorGrantStays(e: Entries, decide: PermClass -> Decision, k: nat, j: nat)
    requires e.Generator? && k <= j
    requires VerdictAsWritten(e, decide, k) == Granted
    ensures VerdictAsWritten(e, decide, j) == Granted
  {
    if k < j {
      GrantExhaustsGenerator(StandingAsWritten(e, decide, k), decide);
      StandingAsWrittenStep(e, decide, k);
      ExhaustedStaysExhausted(e, decide, k + 1, j);
    }
  }

  /** A generator that has yielded everything yields nothing on later requests. */
  lemma {:induction false} ExhaustedStaysExhausted(e: Entries, decide: PermClass -> Decision, k: nat, j: nat)
    requires k <= j && StandingAsWritten(e, decide, k) == Generator([])
    ensures StandingAsWritten(e, decide, j) == Generator([])
    decreases j - k
  {
    if k < j {
      StandingAsWrittenStep(e, decide, k);
      ExhaustedStaysExhausted(e, decide, k + 1, j);
    }
  }

  /** As written, registering anything after an unregister raises `TypeError`. */
  lemma RegisterAfterUnregisterFails(e: Entries, c: PermClass, d: PermClass)
    ensures AppendAsWritten(UnregisterAsWritten(e, d), c).None?
  {
  }

  /**
   * With sequences, consulting changes no list, so the same registry and the
   * same answers give the same verdict on every request.
   */
  method ConsultTwice(perms: CustomPermissions, decide: PermClass -> Decision) returns (first: Verdict, second: Verdict)
    modifies perms
    ensures first == second == Outcome(old(perms.hasPermissionInstances), decide)
  {
    first := perms.HasPermission(decide);
    second := perms.HasPermission(decide);
  }
}
