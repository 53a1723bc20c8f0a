/** Whole runs of programs that use the stacklet library (stacklet/stacklet.h). */
module StackletRuns {
  import opened Options
  import opened StackletCore

  /** One step of a program that uses the library; `k` selects one of the handles it holds. */
  datatype Event =
    | NewEvent(stackPointer: int, marker: int, memory: bool)
    | SwitchEvent(stackPointer: int, marker: int, k: nat, memory: bool)
    | FinishEvent(k: nat)
    | DestroyEvent(k: nat)
    | WriteEvent(address: int, value: byte)

  /** What a step did: it may not have been allowed, and it may have resumed a stack, which
      held `suspended` when it was left and `resumed` when it was entered again. */
  datatype Outcome = NotAllowed | NothingResumed | Resumed(suspended: seq<byte>, resumed: seq<byte>)

  function Take(s: seq<Stacklet>, k: nat): (r: seq<Stacklet>)
    requires k < |s|
    ensures Distinct(s) ==> Distinct(r)
    ensures Distinct(s) ==> s[k] !in r
    ensures forall g :: g in s && g != s[k] ==> g in r
    ensures forall g :: g in r ==> g in s
    ensures |r| == |s| - 1
  {
    s[..k] + s[k + 1..]
  }

  /** The handles held are the live ones, each recorded with its bytes. */
  ghost predicate Accounted(handles: seq<Stacklet>, left: map<Stacklet, seq<byte>>, live: set<Stacklet>) {
    && (forall g :: g in handles ==> g in live) && (forall g :: g in live ==> g in handles)
    && Distinct(handles)
    && (forall g :: g in live ==> g in left && left[g] == g.image)
  }

  lemma AccountedSwitch(handles: seq<Stacklet>, left: map<Stacklet, seq<byte>>, live: set<Stacklet>,
                        k: nat, g: Stacklet)
    requires Accounted(handles, left, live) && k < |handles| && g !in live
    ensures Accounted(Take(handles, k), left, live - {handles[k]})
    ensures Accounted(Take(handles, k) + [g], left[g := g.image], live - {handles[k]} + {g})
  {
  }

  /** A program that uses the library: the handles it holds, and for each of them the bytes
      read from the C stack at the moment it was left. */
  class Program {
    const t: Thread
    var handles: seq<Stacklet>
    var left: map<Stacklet, seq<byte>>

    ghost predicate Valid()
      reads this, t, t.stack, t.live, t.chain, set g <- t.live :: g.heap
    {
      t.Valid() && Accounted(handles, left, t.live)
    }

    ghost function Footprint(): set<object>
      reads this, t, t.live
    {
      {this, t, t.stack} + t.live + set g <- t.live :: g.heap
    }

    constructor (stackSize: nat)
      ensures Valid() && fresh(Footprint())
    {
      t := new Thread(stackSize);
      handles, left := [], map[];
    }

    method Create(stackPointer: int, marker: int, memory: bool)
      requires Valid() && t.CallFrom(stackPointer, marker)
      modifies this, t
      ensures Valid() && fresh(Footprint() - old(Footprint()))
      ensures |handles| == |old(handles)| + if memory then 1 else 0
    {
      var bytes := t.stack[stackPointer..t.StopFor(marker)];
      t.New(stackPointer, marker, memory);
      if t.source.Suspended? {
        handles, left := handles + [t.source.g], left[t.source.g := bytes];
      }
    }

    method SwitchTo(stackPointer: int, marker: int, k: nat) returns (o: Outcome)
      requires Valid() && t.CallFrom(stackPointer, marker) && k < |handles|
      modifies Footprint()
      ensures Valid() && fresh(Footprint() - old(Footprint()))
      ensures o.Resumed? && o.suspended == o.resumed && |handles| == |old(handles)|
    {
      hide Chained, Thread.Covers, Take, SavedBelow;
      var bytes, g := t.stack[stackPointer..t.StopFor(marker)], handles[k];
      t.Switch(stackPointer, marker, g, true);
      o := Resumed(left[g], t.stack[g.stackStart..g.stackStop]);
      AccountedSwitch(handles, left, old(t.live), k, t.source.g);
      handles, left := Take(handles, k) + [t.source.g], left[t.source.g := bytes];
    }

    method FinishTo(k: nat) returns (o: Outcome)
      requires Valid() && k < |handles|
      modifies Footprint()
      ensures Valid() && fresh(Footprint() - old(Footprint()))
      ensures o.Resumed? && o.suspended == o.resumed && |handles| == |old(handles)| - 1
    {
      var g := handles[k];
      t.Finish(g);
      o := Resumed(left[g], t.stack[g.stackStart..g.stackStop]);
      handles := Take(handles, k);
    }

    method Drop(k: nat)
      requires Valid() && k < |handles|
      modifies Footprint()
      ensures Valid() && fresh(Footprint() - old(Footprint())) && |handles| == |old(handles)| - 1
    {
      t.Destroy(handles[k], t);
      handles := Take(handles, k);
    }

    /** The arguments describe a possible call, or a write of the running stack into its own part. */
    predicate Possible(e: Event)
      reads this, t
    {
      match e
      case NewEvent(sp, marker, _) => t.CallFrom(sp, marker)
      case SwitchEvent(sp, marker, k, _) => t.CallFrom(sp, marker) && k < |handles|
      case FinishEvent(k) => k < |handles|
      case DestroyEvent(k) => k < |handles|
      case WriteEvent(a, _) => 0 <= a < t.stack.Length && (t.chainHead == null || a < t.currentStop)
    }

    /** How many handles more the program holds after a step. */
    function Change(e: Event): int
      reads this, t
    {
      if !Possible(e) then 0 else
      match e
      case NewEvent(_, _, memory) => if memory then 1 else 0
      case FinishEvent(_) => -1
      case DestroyEvent(_) => -1
      case _ => 0
    }

    /** A step is refused only if it is not possible. */
    method Step(e: Event) returns (o: Outcome)
      requires Valid()
      modifies Footprint()
      ensures Valid() && fresh(Footprint() - old(Footprint()))
      ensures o.Resumed? ==> o.suspended == o.resumed
      ensures o.Resumed? <==> old(Possible(e)) && (e.FinishEvent? || (e.SwitchEvent? && e.memory))
      ensures o.NotAllowed? <==> !old(Possible(e))
      ensures |handles| == |old(handles)| + old(Change(e))
      ensures e.WriteEvent? && old(Possible(e)) ==> t.stack[..] == old(t.stack[..])[e.address := e.value]
    {
      hide Chained, Thread.Covers;
      o := NotAllowed;
      match e {
        case NewEvent(sp, marker, memory) =>
          if t.CallFrom(sp, marker) {
            Create(sp, marker, memory);
            o := NothingResumed;
          }
        case SwitchEvent(sp, marker, k, memory) =>
          if t.CallFrom(sp, marker) && k < |handles| {
            if memory {
              o := SwitchTo(sp, marker, k);
            } else {
              t.Switch(sp, marker, handles[k], false);
              o := NothingResumed;
            }
          }
        case FinishEvent(k) =>
          if k < |handles| {
            o := FinishTo(k);
          }
        case DestroyEvent(k) =>
          if k < |handles| {
            Drop(k);
            o := NothingResumed;
          }
        case WriteEvent(a, v) =>
          if 0 <= a < t.stack.Length && (t.chainHead == null || a < t.currentStop) {
            t.Write(a, v);
            o := NothingResumed;
          }
      }
    }
  }

  /** Resume fidelity over every run: whatever a program does, from a fresh thread on, each
      stack it enters again holds the bytes it held when it was left. */
  method Run(stackSize: nat, script: seq<Event>) returns (log: seq<Outcome>)
    ensures |log| == |script|
    ensures forall i :: 0 <= i < |log| && log[i].Resumed? ==> log[i].suspended == log[i].resumed
  {
    hide Program.Valid;
    var p := new Program(stackSize);
    log := [];
    for i := 0 to |script|
      invariant p.Valid() && fresh(p.Footprint())
      invariant |log| == i
      invariant forall j :: 0 <= j < i && log[j].Resumed? ==> log[j].suspended == log[j].resumed
    {
      var o := p.Step(script[i]);
      log := log + [o];
    }
  }

  /** A handle of `owner` is destroyed through another thread, right after it was made. The byte at
      its marker is not saved yet, so the freed handle stays on the chain of its owner. */
  method DestroyThroughAnotherThread() returns (owner: Thread, freed: Stacklet)
    ensures freed !in owner.live && freed in owner.chain
    ensures !owner.Valid()
  {
    hide Stacklet.Intact, Chained, Thread.AllIntact, Thread.Covers;
    owner := new Thread(8);
    owner.New(2, 4, true);
    freed := owner.source.g;
    var other := new Thread(8);
    assert freed.Unsaved();
    owner.ChainedIffUnsaved(freed);
    other.Destroy(freed, owner);
  }
}
