/** Lazy stack saving, after stacklet/stacklet.c.

    The C stack is an array of bytes indexed by address; it grows towards index 0.
    A suspended stack is a `Stacklet`: its newest bytes may already be in the heap copy, its
    oldest bytes may still be on the C stack, and the split moves only as far as the next
    switch needs. Every stacklet remembers, in the ghost constant `image`, the bytes it
    held when it was suspended: the whole point of the module is that resuming it
    puts exactly these bytes back. */
module StackletCore {

  newtype byte = x: int | 0 <= x < 256

  /** struct stacklet_s, together with the heap area allocated right behind it. */
  class Stacklet {
    const stackStart: int
    const stackStop: int
    var stackSaved: int
    var stackPrev: Stacklet?
    const heap: array<byte>
    ghost const image: seq<byte>
    ghost var copiedOut: int

    constructor (start: int, stop: int, prev: Stacklet?, ghost bytes: seq<byte>)
      requires start <= stop
      ensures stackStart == start && stackStop == stop && stackPrev == prev
      ensures stackSaved == 0 && copiedOut == 0
      ensures heap.Length == stop - start && fresh(heap)
      ensures image == bytes
    {
      stackStart, stackStop, stackPrev := start, stop, prev;
      stackSaved, copiedOut := 0, 0;
      heap := new byte[stop - start];
      image := bytes;
    }

    ghost predicate Shaped(stack: array<byte>)
      reads this
    {
      && 0 <= stackStart < stackStop <= stack.Length
      && heap.Length == stackStop - stackStart == |image|
      && heap != stack
      && 0 <= stackSaved <= heap.Length
      && copiedOut == stackSaved
    }

    /** Some bytes of the stack are still on the C stack only. */
    ghost predicate Unsaved()
      reads this
    {
      stackSaved < stackStop - stackStart
    }

    /** Heap prefix followed by C-stack suffix is the suspended stack. */
    ghost predicate Intact(stack: array<byte>)
      reads this, heap, stack
    {
      && Shaped(stack)
      && (forall i :: 0 <= i < stackSaved ==> heap[i] == image[i])
      && (forall i :: stackSaved <= i < |image| ==> stack[stackStart + i] == image[i])
    }
  }

  function First(c: seq<Stacklet>, next: Stacklet? := null): Stacklet? {
    if c == [] then next else c[0]
  }

  /** `c` is a list linked through stackPrev, up to the link `next`; its unsaved parts are
      nonempty, disjoint, in increasing order of address, and at or above `bound`. */
  ghost predicate Chained(c: seq<Stacklet>, bound: int, next: Stacklet? := null)
    reads c
  {
    c == [] ||
    (&& bound <= c[0].stackStart + c[0].stackSaved < c[0].stackStop
     && c[0].stackPrev == First(c[1..], next)
     && Chained(c[1..], c[0].stackStop, next))
  }

  lemma {:induction false} ChainedMembers(c: seq<Stacklet>, bound: int)
    requires Chained(c, bound)
    ensures forall g :: g in c ==> bound <= g.stackStart + g.stackSaved < g.stackStop
  {
    if c != [] {
      ChainedMembers(c[1..], c[0].stackStop);
      assert forall g :: g in c ==> g == c[0] || g in c[1..];
    }
  }

  lemma {:induction false} ChainedDistinct(c: seq<Stacklet>, bound: int)
    requires Chained(c, bound)
    ensures forall i, j :: 0 <= i < j < |c| ==> c[i] != c[j]
  {
    if c != [] {
      ChainedMembers(c[1..], c[0].stackStop);
      ChainedDistinct(c[1..], c[0].stackStop);
      assert forall i :: 1 <= i < |c| ==> c[i] == c[1..][i - 1];
    }
  }

  /** Along the chain the unsaved part of a stacklet lies wholly below that of every later
      one: the parts are disjoint and the stops increase. */
  lemma {:induction false} ChainedInOrder(c: seq<Stacklet>, bound: int, i: nat, j: nat)
    requires Chained(c, bound) && i < j < |c|
    ensures c[i].stackStop <= c[j].stackStart + c[j].stackSaved < c[j].stackStop
  {
    ChainedMembers(c[1..], c[0].stackStop);
    assert c[j] == c[1..][j - 1];
    if i > 0 {
      ChainedInOrder(c[1..], c[0].stackStop, i - 1, j - 1);
    }
  }

  lemma WeakerBound(c: seq<Stacklet>, bound: int, lower: int)
    requires Chained(c, bound) && lower <= bound
    ensures Chained(c, lower)
  {
  }

  function EndOf(c: seq<Stacklet>, bound: int): int {
    if c == [] then bound else c[|c| - 1].stackStop
  }

  /** A chain can be cut, and joined again, at any link. */
  lemma {:induction false} ChainedAppend(c: seq<Stacklet>, d: seq<Stacklet>, bound: int, next: Stacklet?)
    ensures Chained(c + d, bound, next) <==>
      Chained(c, bound, First(d, next)) && Chained(d, EndOf(c, bound), next)
  {
    if c == [] {
      assert c + d == d;
    } else {
      ChainedAppend(c[1..], d, c[0].stackStop, next);
      assert (c + d)[1..] == c[1..] + d;
    }
  }

  /** Laziness: how much of a stack [start, stop) is saved once everything below `bound` must be,
      when `saved` bytes were before. */
  function SavedBelow(start: int, stop: int, saved: int, bound: int): (n: int)
    ensures saved <= n && start + n >= if stop <= bound then stop else bound
    ensures n == saved || start + n == if stop <= bound then stop else bound
  {
    var needed := (if stop <= bound then stop else bound) - start;
    if saved < needed then needed else saved
  }

  ghost predicate Settled(g: Stacklet, was: int, bound: int)
    reads g
  {
    g.stackSaved == SavedBelow(g.stackStart, g.stackStop, was, bound)
  }

  lemma SavedWhole(g: Stacklet, bound: int)
    requires g.stackSaved == g.stackStop - g.stackStart
    ensures Settled(g, g.stackSaved, bound)
  {
  }

  lemma WholeIsSettled(g: Stacklet, was: int, bound: int)
    requires was <= g.stackSaved == g.stackStop - g.stackStart && g.stackStop <= bound
    ensures Settled(g, was, bound)
  {
  }

  /** What `g_source` holds: NULL, EMPTY_STACKLET_HANDLE, or a usable handle. */
  datatype Handle = Null | Empty | Suspended(g: Stacklet)

  /** struct stacklet_thread_s, with the C stack it manages. */
  class Thread {
    const stack: array<byte>
    var chainHead: Stacklet?
    var currentStop: int
    var currentMarker: int
    var source: Handle

    ghost var chain: seq<Stacklet>   // the list threaded through stackPrev
    ghost var live: set<Stacklet>    // handles given out and not yet consumed

    /** Every live stacklet is intact, and their heap copies do not overlap. */
    ghost predicate AllIntact()
      reads this, stack, live, set g <- live :: g.heap
    {
      && (forall g :: g in live ==> g.Intact(stack))
      && (forall g, h :: g in live && h in live && g != h ==> g.heap != h.heap)
    }

    /** `c` holds the live stacklets with unsaved bytes, `exempt` aside. */
    ghost predicate Covers(c: seq<Stacklet>, exempt: set<Stacklet>)
      reads this, live
    {
      && (forall g :: g in c ==> g in live)
      && (forall g :: g in live && g.Unsaved() ==> g in c || g in exempt)
    }

    ghost predicate Consistent(bound: int, exempt: set<Stacklet>)
      reads this, stack, live, chain, set g <- live :: g.heap
    {
      chainHead == First(chain) && Chained(chain, bound) && Covers(chain, exempt) && AllIntact()
    }

    ghost predicate Valid()
      reads this, stack, live, chain, set g <- live :: g.heap
    {
      0 <= currentStop <= stack.Length && Consistent(currentStop, {})
    }

    constructor (stackSize: nat)
      ensures Valid() && live == {} && chain == [] && currentStop == 0
      ensures stack.Length == stackSize && fresh(stack)
    {
      stack := new byte[stackSize];
      chainHead, currentStop, currentMarker, source := null, 0, 0, Null;
      chain, live := [], {};
    }

    /** g_save: copy more of `g` to the heap, at least up to address `stop`. */
    method Save(g: Stacklet, stop: int, ghost rest: seq<Stacklet>, ghost bound: int)
      requires g in live && stop <= g.stackStop
      requires AllIntact() && Chained(rest, bound) && g !in rest
      modifies g`stackSaved, g`copiedOut, g.heap
      ensures AllIntact() && Chained(rest, bound)
      ensures g.stackSaved == if stop - g.stackStart > old(g.stackSaved) then stop - g.stackStart
                              else old(g.stackSaved)
    {
      var sz1 := g.stackSaved;
      var sz2 := stop - g.stackStart;
      if sz2 > sz1 {
        forall i | sz1 <= i < sz2 {
          g.heap[i] := stack[g.stackStart + i];
        }
        g.copiedOut := g.copiedOut + (sz2 - sz1);
        g.stackSaved := sz2;
        assert g.Intact(stack);
        forall h | h in live && h != g ensures h.Intact(stack) {
          assert old(h.Intact(stack)) && h.heap != g.heap;
        }
      }
    }

    /** g_allocate_source_stacklet: the running context becomes the head of the chain. */
    method AllocateSource(stackPointer: int, memory: bool)
      requires Valid()
      requires 0 <= stackPointer < currentStop
      modifies this`chainHead, this`chain, this`live, this`source
      ensures !memory ==> Valid() && source == Null && live == old(live) && chain == old(chain)
      ensures memory ==>
        && Consistent(stackPointer, {})
        && source.Suspended? && fresh(source.g) && fresh(source.g.heap)
        && live == old(live) + {source.g} && chain == [source.g] + old(chain)
        && source.g.stackStart == stackPointer && source.g.stackStop == currentStop
        && source.g.stackSaved == 0
        && source.g.image == stack[stackPointer..currentStop]
    {
      if !memory {
        source := Null;
        return;
      }
      var g := new Stacklet(stackPointer, currentStop, chainHead, stack[stackPointer..currentStop]);
      source := Suspended(g);
      chainHead := g;
      chain, live := [g] + chain, live + {g};
      assert chain[1..] == old(chain);
      assert g.Intact(stack);
      forall h | h in live && h != g ensures h.Intact(stack) {
        assert old(h.Intact(stack));
      }
    }

    /** One turn of the loop in g_clear_stack: the head of the chain is unlinked, and saved
        completely unless it is about to be restored anyway. */
    method Unlink(current: Stacklet, target: Stacklet, ghost rest: seq<Stacklet>, ghost bound: int)
      returns (prev: Stacklet?)
      requires rest != [] && current == rest[0] && Chained(rest, bound)
      requires target in live && Covers(rest, {target}) && AllIntact()
      modifies current`stackPrev, current`stackSaved, current`copiedOut, current.heap
      ensures prev == First(rest[1..]) && Chained(rest[1..], current.stackStop)
      ensures Covers(rest[1..], {target}) && AllIntact()
      ensures target.stackSaved == old(target.stackSaved)
      ensures current != target ==> current.stackSaved == current.stackStop - current.stackStart
      ensures current.stackPrev == null
    {
      ChainedMembers(rest[1..], current.stackStop);
      prev := current.stackPrev;
      current.stackPrev := null;
      assert AllIntact() by {
        forall g | g in live ensures g.Intact(stack) { assert old(g.Intact(stack)); }
      }
      if current != target {
        Save(current, current.stackStop, rest[1..], current.stackStop);
      }
    }

    /** The end of g_clear_stack: the first stacklet left on the chain is saved as far as it
        overlaps the area below `target`'s end. */
    method SavePartial(current: Stacklet?, target: Stacklet, ghost rest: seq<Stacklet>, ghost bound: int)
      requires current == First(rest) && Chained(rest, bound)
      requires target in live && Covers(rest, {target}) && AllIntact()
      requires current == null || target.stackStop < current.stackStop
      modifies if current == null then {} else {current, current.heap}
      ensures Chained(rest, target.stackStop) && target !in rest && current == First(rest)
      ensures Covers(rest, {target}) && AllIntact()
      ensures target.stackSaved == old(target.stackSaved)
      ensures current != null ==>
        current.stackSaved == SavedBelow(current.stackStart, current.stackStop, old(current.stackSaved), target.stackStop)
    {
      if current != null {
        assert current.Intact(stack);
        ChainedMembers(rest[1..], current.stackStop);
        if current.stackStart < target.stackStop {
          Save(current, target.stackStop, rest[1..], current.stackStop);
        }
        ChainedMembers(rest, target.stackStop);
      }
    }

    lemma OffChainSaved(bound: int)
      requires Consistent(bound, {})
      ensures forall g :: g in live && g !in chain ==> g.stackSaved == g.stackStop - g.stackStart
    {
    }

    /** The loop of g_clear_stack: save and unlink the stacklets that end within the area `target` needs. */
    method ClearWhole(target: Stacklet, ghost bound: int) returns (current: Stacklet?, ghost rest: seq<Stacklet>, ghost b: int)
      requires target in live && Consistent(bound, {})
      modifies live, set g <- live :: g.heap
      ensures current == First(rest) && Chained(rest, b) && (current != null ==> target.stackStop < current.stackStop)
      ensures Covers(rest, {target}) && AllIntact()
      ensures target.stackSaved == old(target.stackSaved)
      ensures forall g :: g in rest ==> g.stackSaved == old(g.stackSaved)
      ensures forall g :: g in live && g != target && g !in rest ==>
        g.stackSaved == SavedBelow(g.stackStart, g.stackStop, old(g.stackSaved), target.stackStop)
    {
      hide Stacklet.Intact, SavedBelow;
      OffChainSaved(bound);
      current := chainHead;
      var targetStop := target.stackStop;
      rest, b := chain, bound;
      forall g | g in live && g !in rest ensures Settled(g, g.stackSaved, targetStop) {
        SavedWhole(g, targetStop);
      }
      while current != null && current.stackStop <= targetStop
        invariant current == First(rest) && Chained(rest, b)
        invariant Covers(rest, {target}) && AllIntact()
        invariant target.stackSaved == old(target.stackSaved)
        invariant forall g :: g in rest ==> g.stackSaved == old(g.stackSaved)
        invariant forall g :: g in live && g != target && g !in rest ==> Settled(g, old(g.stackSaved), targetStop)
        decreases |rest|
      {
        assert rest[0] in live;
        ChainedMembers(rest[1..], current.stackStop);
        ghost var was := current.stackSaved;
        var prev := Unlink(current, target, rest, b);
        if current != target { WholeIsSettled(current, was, targetStop); }
        assert forall g :: g in rest ==> g == rest[0] || g in rest[1..];
        b, rest := current.stackStop, rest[1..];
        current := prev;
      }
    }

    /** g_clear_stack: save and unlink the stacklets that end within the area `target` needs,
        and save the overlapping part of the next one. Nothing more is saved than this. */
    method ClearStack(target: Stacklet, ghost bound: int)
      requires target in live && Consistent(bound, {})
      modifies this`chainHead, this`chain, live, set g <- live :: g.heap
      ensures Consistent(target.stackStop, {target}) && target !in chain
      ensures target.stackSaved == old(target.stackSaved)
      ensures forall g :: g in live && g != target ==>
        g.stackSaved == SavedBelow(g.stackStart, g.stackStop, old(g.stackSaved), target.stackStop)
    {
      hide Stacklet.Intact, SavedBelow, Stacklet.Unsaved;
      ghost var rest, b;
      var current;
      current, rest, b := ClearWhole(target, bound);
      assert current != null ==> current in live;
      if rest != [] { ChainedMembers(rest[1..], rest[0].stackStop); }
      SavePartial(current, target, rest, b);
      assert forall g :: g in rest ==> g == rest[0] || g in rest[1..];
      chainHead, chain := current, rest;
    }

    /** g_restore_state: copy the heap part back and give the handle up. */
    method Restore(target: Stacklet)
      requires target in live && Consistent(target.stackStop, {target}) && target !in chain
      modifies stack, this`currentStop, this`live
      ensures Valid()
      ensures live == old(live) - {target} && currentStop == target.stackStop
      ensures stack[target.stackStart..target.stackStop] == target.image
      ensures forall a :: 0 <= a < stack.Length && !(target.stackStart <= a < target.stackStop) ==>
        stack[a] == old(stack[a])
    {
      ChainedMembers(chain, target.stackStop);
      var n := target.stackSaved;
      forall i | 0 <= i < n {
        stack[target.stackStart + i] := target.heap[i];
      }
      currentStop := target.stackStop;
      live := live - {target};
      forall g | g in live ensures g.Intact(stack) {
        assert old(g.Intact(stack));
        if g.Unsaved() {
          assert g in chain;
        }
      }
      assert old(target.Intact(stack));
    }

    /** The tail of slp_switch: g_clear_stack has made room, then g_restore_state runs. */
    method JumpTo(target: Stacklet, ghost bound: int)
      requires target in live && Consistent(bound, {})
      modifies this`chainHead, this`chain, this`currentStop, this`live
      modifies stack, live, set g <- live :: g.heap
      ensures Valid()
      ensures live == old(live) - {target} && currentStop == target.stackStop
      ensures stack[target.stackStart..target.stackStop] == target.image
      ensures forall g :: g in live ==>
        g.stackSaved == SavedBelow(g.stackStart, g.stackStop, old(g.stackSaved), target.stackStop)
    {
      ClearStack(target, bound);
      Restore(target);
    }

    /** A call made at address `marker` by the running context, whose frames then reach down to
        `stackPointer`. Only main, which runs on an empty chain, can be above currentStop. */
    predicate CallFrom(stackPointer: int, marker: int)
      reads this
    {
      0 <= stackPointer <= marker < stack.Length && (chainHead == null || marker < currentStop)
    }

    function StopFor(marker: int): int
      reads this
    {
      if currentStop <= marker then marker + 1 else currentStop
    }

    /** The running context writes to its own part of the C stack. */
    method Write(address: int, value: byte)
      requires Valid()
      requires 0 <= address < stack.Length && (chainHead == null || address < currentStop)
      modifies stack
      ensures Valid() && stack[..] == old(stack[..])[address := value]
    {
      ChainedMembers(chain, currentStop);
      stack[address] := value;
      forall g | g in live ensures g.Intact(stack) {
        assert old(g.Intact(stack));
        if g.Unsaved() {
          assert g in chain;
        }
      }
    }

    /** g_initial_save_state: suspend the running context and save it up to the marker. */
    method InitialSave(stackPointer: int, memory: bool)
      requires Valid()
      requires 0 <= stackPointer <= currentMarker < currentStop
      modifies this`chainHead, this`chain, this`live, this`source
      ensures stack[..] == old(stack[..])
      ensures !memory ==> Valid() && source == Null && live == old(live)
      ensures memory ==>
        && Consistent(currentMarker, {})
        && source.Suspended? && fresh(source.g) && fresh(source.g.heap)
        && live == old(live) + {source.g}
        && source.g.stackStart == stackPointer && source.g.stackStop == currentStop
        && source.g.stackSaved == currentMarker - stackPointer
        && source.g.image == stack[stackPointer..currentStop]
    {
      AllocateSource(stackPointer, memory);
      if source != Null {
        var g := source.g;
        ChainedMembers(chain[1..], currentStop);
        Save(g, currentMarker, chain[1..], currentStop);
        assert g.Intact(stack);
        assert Chained(chain, currentMarker);
      }
    }

    /** stacklet_new up to the point where `run` is entered, or until it has returned NULL. */
    method New(stackPointer: int, marker: int, memory: bool)
      requires Valid() && CallFrom(stackPointer, marker)
      modifies this
      ensures Valid() && stack[..] == old(stack[..])
      ensures !memory ==> source == Null && live == old(live) && currentStop == old(StopFor(marker))
      ensures memory ==>
        && source.Suspended? && fresh(source.g) && fresh(source.g.heap)
        && live == old(live) + {source.g} && currentStop == marker
        && source.g.stackStart == stackPointer && source.g.stackStop == old(StopFor(marker))
        && source.g.stackSaved == marker - stackPointer
        && source.g.image == stack[stackPointer..old(StopFor(marker))]
    {
      currentStop := StopFor(marker);
      currentMarker := marker;
      InitialSave(stackPointer, memory);
      if source != Null {
        currentStop := currentMarker;
      }
    }

    /** stacklet_switch: suspend the running context and resume `target`. */
    method Switch(stackPointer: int, marker: int, target: Stacklet, memory: bool)
      requires Valid() && CallFrom(stackPointer, marker) && target in live
      modifies this, stack, live, set g <- live :: g.heap
      ensures Valid()
      ensures !memory ==>
        && source == Null && live == old(live) && currentStop == old(StopFor(marker))
        && stack[..] == old(stack[..])
      ensures memory ==>
        && source.Suspended? && fresh(source.g) && fresh(source.g.heap)
        && live == old(live) - {target} + {source.g} && currentStop == target.stackStop
        && source.g.stackStart == stackPointer && source.g.stackStop == old(StopFor(marker))
        && source.g.image == old(stack[stackPointer..StopFor(marker)])
        && stack[target.stackStart..target.stackStop] == target.image
        && source.g.stackSaved == SavedBelow(source.g.stackStart, source.g.stackStop, 0, target.stackStop)
        && forall g :: g in old(live) && g != target ==>
             g.stackSaved == SavedBelow(g.stackStart, g.stackStop, old(g.stackSaved), target.stackStop)
    {
      hide Stacklet.Intact, Chained;
      currentStop := StopFor(marker);
      AllocateSource(stackPointer, memory);
      if source != Null {
        JumpTo(target, stackPointer);
      }
    }

    /** The end of g_initialstub: `run` has returned `target`, and its stack is dropped. */
    method Finish(target: Stacklet)
      requires Valid() && target in live
      modifies this, stack, live, set g <- live :: g.heap
      ensures Valid() && source == Empty
      ensures live == old(live) - {target} && currentStop == target.stackStop
      ensures stack[target.stackStart..target.stackStop] == target.image
      ensures forall g :: g in live ==>
        g.stackSaved == SavedBelow(g.stackStart, g.stackStop, old(g.stackSaved), target.stackStop)
    {
      source := Empty;
      JumpTo(target, currentStop);
    }

    /** Redirect the link of chain element `p` past its successor. */
    method Bypass(p: Stacklet, target: Stacklet, ghost k: nat)
      requires Chained(chain, currentStop) && chainHead == First(chain)
      requires k < |chain| && p == chain[k] && p.stackPrev == target
      modifies p`stackPrev, this`chain
      ensures Chained(chain, currentStop) && chainHead == First(chain)
      ensures old(k + 1 < |chain| && chain[k + 1] == target)
      ensures chain == old(chain[..k + 1] + chain[k + 2..])
    {
      ghost var pre, rest := chain[..k], chain[k..];
      assert chain == pre + rest;
      ChainedAppend(pre, rest, currentStop, null);
      ChainedDistinct(chain, currentStop);
      assert rest[1..] == [target] + chain[k + 2..];
      p.stackPrev := target.stackPrev;
      ghost var post := [p] + chain[k + 2..];
      assert post[1..] == chain[k + 2..];
      WeakerBound(chain[k + 2..], target.stackStop, p.stackStop);
      ChainedAppend(pre, post, currentStop, null);
      assert chain[..k + 1] + chain[k + 2..] == pre + post;
      chain := pre + post;
    }

    /** The list walk of stacklet_destroy: unlink the handle, if it is there. */
    method RemoveFromChain(target: Stacklet)
      requires Chained(chain, currentStop) && chainHead == First(chain)
      requires forall g :: g in chain ==> g in live
      modifies this`chainHead, this`chain, live`stackPrev
      ensures Chained(chain, currentStop) && chainHead == First(chain)
      ensures forall g :: g in chain <==> g in old(chain) && g != target
    {
      ChainedDistinct(chain, currentStop);
      if chainHead == target {
        chainHead := target.stackPrev;
        WeakerBound(chain[1..], target.stackStop, currentStop);
        chain := chain[1..];
      } else {
        var p := chainHead;
        ghost var k := 0;
        while p != null && p.stackPrev != target
          invariant 0 <= k <= |chain| && p == First(chain[k..]) && target !in chain[..k]
          invariant p != target && Chained(chain[k..], EndOf(chain[..k], currentStop))
          decreases |chain| - k
        {
          assert chain[k..][1..] == chain[k + 1..];
          p := p.stackPrev;
          k := k + 1;
        }
        if p != null {
          Bypass(p, target, k);
        }
      }
    }

    /** A live stacklet is on the chain exactly while some of its bytes are unsaved. */
    lemma ChainedIffUnsaved(g: Stacklet)
      requires Valid() && g in live
      ensures g in chain <==> g.Unsaved()
    {
      ChainedMembers(chain, currentStop);
    }

    /** The list walk of stacklet_destroy on a valid thread, and what another one notices of it. */
    method Forget(target: Stacklet, ghost owner: Thread)
      requires Valid() && owner.Valid() && target in owner.live
      requires owner != this ==> live !! owner.live
      modifies this`chainHead, this`chain, live`stackPrev
      ensures Chained(chain, currentStop) && chainHead == First(chain) && AllIntact()
      ensures forall g :: g in chain <==> g in old(chain) && g != target
      ensures owner != this ==> owner.Valid()
    {
      RemoveFromChain(target);
      forall g | g in live ensures g.Intact(stack) {
        assert old(g.Intact(stack));
      }
      if owner != this {
        forall g | g in owner.live ensures g.Intact(owner.stack) {
          assert old(g.Intact(owner.stack));
        }
      }
    }

    /** stacklet_destroy: unlink the handle from the chain of this thread and free it. The handle
        may belong to another thread, `owner`, whose chain is then not looked at: if some of its
        stack is still unsaved, it stays there after it has been freed. */
    method Destroy(target: Stacklet, ghost owner: Thread)
      requires Valid() && owner.Valid() && target in owner.live
      requires owner != this ==> live !! owner.live
      modifies this`chainHead, this`chain, owner`live, live`stackPrev
      ensures owner.live == old(owner.live) - {target}
      ensures owner.Valid() <==> owner == this || old(!target.Unsaved())
      ensures target in owner.chain <==> owner != this && old(target.Unsaved())
      ensures owner != this ==> Valid() && live == old(live) && owner.chain == old(owner.chain)
    {
      hide Stacklet.Intact, Chained;
      owner.ChainedIffUnsaved(target);
      Forget(target, owner);
      owner.live := owner.live - {target};
    }
  }

  /** Where _stacklet_translate_pointer points to, or the failure of one of its assertions. */
  datatype Place = InHeap(index: int) | OnStack(address: int) | AssertionFails

  /** The cast from long to unsigned long. */
  function Unsigned(x: int): (u: int)
    requires -0x8000_0000_0000_0000 <= x < 0x8000_0000_0000_0000
    ensures 0 <= u < 0x1_0000_0000_0000_0000
    ensures (u - x) % 0x1_0000_0000_0000_0000 == 0
  {
    if x < 0 then x + 0x1_0000_0000_0000_0000 else x
  }

  function TranslatePointer(context: Stacklet?, p: int): Place
    requires context != null ==>
      && -0x8000_0000_0000_0000 <= p - context.stackStart < 0x8000_0000_0000_0000
      && 0 <= context.stackSaved <= context.stackStop - context.stackStart < 0x8000_0000_0000_0000
    reads context
  {
    if context == null then OnStack(p) else
    var delta := p - context.stackStart;
    if Unsigned(delta) < Unsigned(context.stackSaved) then
      InHeap(delta)
    else if Unsigned(delta) >= Unsigned(context.stackStop - context.stackStart)
            && !(delta >= 0 && context.stackStop % 2 == 1) then
      AssertionFails
    else
      OnStack(p)
  }

  /** A pointer into a suspended stack is translated to the place that holds the byte it
      referred to at suspension, however much of the stack has been saved since. Outside,
      the only accepted pointers lie past the end of a stack whose end is odd, as main's is. */
  lemma TranslatedByteIsTheSuspendedByte(stack: array<byte>, g: Stacklet, p: int)
    requires g.Intact(stack)
    requires stack.Length < 0x8000_0000_0000_0000 && -0x4000_0000_0000_0000 <= p < 0x4000_0000_0000_0000
    requires g.stackStart < 0x4000_0000_0000_0000
    ensures var place := TranslatePointer(g, p);
      if g.stackStart <= p < g.stackStop then
        match place
        case InHeap(i) => 0 <= i < g.heap.Length && g.heap[i] == g.image[p - g.stackStart]
        case OnStack(a) => a == p && stack[a] == g.image[p - g.stackStart]
        case AssertionFails => false
      else
        place == if p >= g.stackStop && g.stackStop % 2 == 1 then OnStack(p) else AssertionFails
  {
    var i := p - g.stackStart;
    if g.stackSaved <= i < |g.image| {
      assert stack[g.stackStart + i] == g.image[i];
    }
  }
}
