/**
 * The thread module with its objects, its circular list of them behind a head, and its mutex. Every function is one
 * step of the registry, and the list is only changed while the mutex is held.
 */
module ThreadObjects {
  import opened CStrings
  import opened Threads

  class ThreadObject {
    var threadId: int
    var isJoinable: bool
    var state: State
    var destructorList: seq<nat>
    var ran: seq<nat>
    var hasHandle: bool
    var joinFrees: nat
    var cleanupFrees: nat
    var prev: ThreadObject
    var next: ThreadObject
    /** The context for the main function: the number of a memory block. */
    const context: nat

    /** A cleared object that links to itself. */
    constructor (context: nat)
      ensures prev == this && next == this && this.context == context
      ensures Value() == Thread(0, false, New, [], [], false, 0, 0)
    {
      this.context := context;
      threadId, isJoinable, state, destructorList, ran := 0, false, New, [], [];
      hasHandle, joinFrees, cleanupFrees := false, 0, 0;
      prev, next := this, this;
    }

    ghost function Value(): Thread
      reads this
    {
      Thread(threadId, isJoinable, state, destructorList, ran, hasHandle, joinFrees, cleanupFrees)
    }
  }

  class ThreadModule {
    const threadList: ThreadObject
    var mutexHeld: bool
    /** Every object ever created, in order; released objects stay in it. */
    ghost var created: seq<ThreadObject>

    constructor ()
      ensures Valid() && fresh(Footprint())
      ensures Registered() == Registry([], [], false)
    {
      threadList := new ThreadObject(0);
      mutexHeld := false;
      created := [];
    }

    ghost function Footprint(): set<object>
      reads this
    {
      {this, threadList} + set t | t in created
    }

    /** All links of objects lead to the head; the head links to itself or, both ways, to the latest object. */
    ghost predicate Linked()
      reads Footprint()
    {
      && threadList !in created
      && (forall i, j | 0 <= i < j < |created| :: created[i] != created[j])
      && (forall i | 0 <= i < |created| :: created[i].prev == threadList && created[i].next == threadList)
      && threadList.prev == threadList.next
      && (threadList.next == threadList || (created != [] && threadList.next == created[|created| - 1]))
    }

    ghost function Registered(): Registry
      reads Footprint()
    {
      Registry(
        seq(|created|, i requires 0 <= i < |created| reads Footprint() => created[i].Value()),
        if threadList.next == threadList then [] else [if created == [] then 0 else |created| - 1],
        mutexHeld)
    }

    /** The contexts that the threads got, in the order of their objects. */
    ghost function Contexts(): seq<nat>
      reads this
    {
      seq(|created|, i requires 0 <= i < |created| reads this => created[i].context)
    }

    ghost predicate Valid()
      reads Footprint()
    {
      Linked() && Sound(Registered())
    }

    // ----- mutex and list -----

    method Lock()
      requires !mutexHeld
      modifies this`mutexHeld
      ensures mutexHeld
    {
      mutexHeld := true;
    }

    method Unlock()
      requires mutexHeld
      modifies this`mutexHeld
      ensures !mutexHeld
    {
      mutexHeld := false;
    }

    method InitList(head: ThreadObject)
      requires mutexHeld
      modifies head`prev, head`next
      ensures head.prev == head && head.next == head
    {
      head.next, head.prev := head, head;
    }

    method AddTail(t: ThreadObject)
      requires mutexHeld && t != threadList && t.joinFrees + t.cleanupFrees == 0
      requires threadList.prev != t
      modifies threadList`prev, t`prev, t`next, threadList.prev`next
      ensures t.next == threadList && t.prev == old(threadList.prev)
      ensures threadList.prev == t && old(threadList.prev).next == t
    {
      threadList.prev.next := t;
      t.next := threadList;
      t.prev := threadList.prev;
      threadList.prev := t;
    }

    method Delete(t: ThreadObject)
      requires mutexHeld && t.joinFrees + t.cleanupFrees == 0
      requires t.prev != t && t.next != t
      modifies t.prev`next, t.next`prev
      ensures old(t.prev).next == t.next && old(t.next).prev == old(t.prev)
      ensures old(t.next) == old(t.prev) ==> t.prev == old(t.prev) && t.next == old(t.next)
    {
      t.next.prev := t.prev;
      t.prev.next := t.next;
    }

    method FindThreadFromIdInList(id: int) returns (found: ThreadObject?)
      requires Linked() && mutexHeld
      ensures found == Named(id)
    {
      var t := threadList.next;
      while t != threadList
        invariant t == threadList.next || (t == threadList && threadList.next.threadId != id)
        decreases t != threadList
      {
        if t.threadId == id { return t; }
        t := t.next;
      }
      return null;
    }

    /** The object that the registry gives for an identifier. */
    ghost function Named(id: int): (found: ThreadObject?)
      requires Linked()
      reads Footprint()
      ensures found != null ==> created != [] && found == created[|created| - 1] && found.threadId == id
      ensures found != null ==> Find(Registered().objects, Registered().list, id) == Some(|created| - 1)
      ensures found != null ==> found.Value() == Registered().objects[|created| - 1]
      ensures found == null ==> Find(Registered().objects, Registered().list, id).None?
    {
      match Find(Registered().objects, Registered().list, id)
      case None => null
      case Some(i) => created[i]
    }

    /** Nothing but the mutex may have changed. */
    twostate lemma NothingChanged()
      requires old(Linked()) && created == old(created)
      requires unchanged(threadList) && forall t | t in created :: unchanged(t)
      ensures Linked() && Registered() == old(Registered()).(locked := mutexHeld)
      ensures forall id :: Named(id) == old(Named(id))
    {
      assert forall i | 0 <= i < |created| :: created[i] in created && created[i].Value() == old(created[i].Value());
      assert Registered().objects == old(Registered()).objects;
    }

    /** One object and the mutex may have changed, and the list may have been emptied. */
    twostate lemma OneChanged(i: nat)
      requires old(Linked()) && created == old(created) && i < |created|
      requires threadList.prev == threadList.next
      requires threadList.next == old(threadList.next) || threadList.next == threadList
      requires created[i].prev == old(created[i].prev) && created[i].next == old(created[i].next)
      requires forall t | t in created && t != created[i] :: unchanged(t)
      ensures Linked()
      ensures Registered() == Registry(
        old(Registered()).objects[i := created[i].Value()],
        if threadList.next == old(threadList.next) then old(Registered()).list else [], mutexHeld)
    {
      assert forall j | 0 <= j < |created| && j != i :: created[j] != created[i] && created[j] in created;
      assert forall j | 0 <= j < |created| && j != i :: created[j].Value() == old(created[j].Value());
      assert Registered().objects == old(Registered()).objects[i := created[i].Value()];
    }

    /** One object has been put at the end of the sequence and is alone in the list. */
    twostate lemma ObjectAdded(t: ThreadObject)
      requires old(Linked()) && created == old(created) + [t] && t !in old(Footprint())
      requires t.prev == threadList && t.next == threadList && threadList.prev == t && threadList.next == t
      requires forall o | o in old(created) :: o.Value() == old(o.Value()) && o.prev == old(o.prev) && o.next == old(o.next)
      ensures Linked()
      ensures Registered() == Registry(old(Registered()).objects + [t.Value()], [|old(created)|], mutexHeld)
    {
      assert Registered().objects == old(Registered()).objects + [t.Value()];
    }

    /** Neither a thread that lives nor one in the registry has a released object. */
    lemma NotReleased(i: nat)
      requires Valid() && i < |created|
      requires created[i].state != Dying || (threadList.next == created[i] && i == |created| - 1)
      ensures created[i].joinFrees + created[i].cleanupFrees == 0
    {
      assert Registered().objects[i] == created[i].Value();
    }

    lemma ObjectAt(i: nat)
      requires i < |created|
      ensures |Registered().objects| == |created| && Registered().objects[i] == created[i].Value()
      ensures Registered().locked == mutexHeld && (threadList.next == threadList ==> Registered().list == [])
    {
    }

    lemma Sizes()
      ensures |Registered().objects| == |created|
    {
    }

    /** The latest object, seen from the registry. */
    lemma LatestValue()
      requires created != []
      ensures Sound(Registered()) ==> created[|created| - 1].threadId == 1
      ensures Registered().locked == mutexHeld && Registered().objects != [] && |Registered().objects| == |created|
      ensures Registered().objects[|created| - 1] == created[|created| - 1].Value()
    {
    }

    /** What a lookup finds in terms of the registry. */
    lemma LookedUp(id: int)
      requires Valid()
      ensures Registered().locked == mutexHeld
      ensures NewObject(Registered(), id).0 ==
        if Named(id) == null || Named(id).state != New then None else Some(|created| - 1)
      ensures NewObject(Registered(), id).1 == if Named(id) == null then -1 else if Named(id).state != New then -2 else 0
      ensures Find(Registered().objects, Registered().list, id) ==
        if Named(id) == null then None else Some(|created| - 1)
      ensures |Registered().objects| == |created|
      ensures Named(id) != null ==>
        && created != [] && Named(id) == created[|created| - 1] && Named(id).joinFrees + Named(id).cleanupFrees == 0
        && Named(id).Value() == Registered().objects[|created| - 1]
    {
    }

    // ----- calls -----

    method CreateThread(context: nat) returns (t: ThreadObject)
      requires Valid() && Returns(Registered(), Create)
      modifies this, threadList
      ensures fresh(t) && created == old(created) + [t] && t.context == context && Linked()
      ensures Registered() == Created(old(Registered()))
      ensures Valid()
    {
      StepKeepsSound(Registered(), Create);
      t := new ThreadObject(context);
      t.isJoinable := false;
      t.state := New;
      Register(t);
    }

    /** The list is cleared before the object enters it, so the objects created before are not found any more. */
    method Register(t: ThreadObject)
      requires Linked() && !mutexHeld && t !in Footprint() && t.joinFrees + t.cleanupFrees == 0
      modifies this, threadList, t
      ensures created == old(created) + [t] && Linked()
      ensures t.Value() == old(t.Value()).(threadId := old(t.threadId) + 1)
      ensures Registered() == Registry(old(Registered()).objects + [t.Value()], [|old(created)|], false)
      ensures |old(Registered()).objects| == |old(created)|
    {
      Lock();
      InitList(threadList);
      InitList(t);
      t.threadId := t.threadId + 1;
      AddTail(t);
      created := created + [t];
      Unlock();
      ObjectAdded(t);
    }

    /** How calls look an object up: what they then do with it they do without the mutex. */
    method FindUnderLock(id: int) returns (found: ThreadObject?)
      requires Linked() && !mutexHeld
      modifies this`mutexHeld
      ensures !mutexHeld && created == old(created) && Linked()
      ensures Registered() == old(Registered()) && found == old(Named(id))
    {
      Lock();
      NothingChanged();
      found := FindThreadFromIdInList(id);
      Unlock();
      NothingChanged();
    }

    method SetThreadJoinable(id: int, attrSet: bool) returns (code: int)
      requires Valid() && Returns(Registered(), SetJoinable(id, attrSet))
      modifies Footprint()
      ensures created == old(created) && Linked()
      ensures Registered() == MadeJoinable(old(Registered()), id, attrSet).0
      ensures code == MadeJoinable(old(Registered()), id, attrSet).1
      ensures Valid()
    {
      hide Sound;
      StepKeepsSound(Registered(), SetJoinable(id, attrSet));
      LookedUp(id);
      var t := FindUnderLock(id);
      if t == null { return -1; }
      if t.state != New { return -2; }
      t.isJoinable := true;
      OneChanged(|created| - 1);
      return if attrSet then 0 else -3;
    }

    method AddDestructorToThread(id: int, destructor: nat) returns (code: int)
      requires Valid() && Returns(Registered(), AddDestructor(id, destructor))
      modifies Footprint()
      ensures created == old(created) && Linked()
      ensures Registered() == DestructorAdded(old(Registered()), id, destructor).0
      ensures code == DestructorAdded(old(Registered()), id, destructor).1
      ensures Valid()
    {
      hide Sound;
      StepKeepsSound(Registered(), AddDestructor(id, destructor));
      LookedUp(id);
      var t := FindUnderLock(id);
      if t == null { return -1; }
      if t.state != New { return -2; }
      t.destructorList := t.destructorList + [destructor];
      OneChanged(|created| - 1);
      return 0;
    }

    method StartThread(id: int, threadCreated: bool) returns (code: int)
      requires Valid() && Returns(Registered(), Start(id, threadCreated))
      modifies Footprint()
      ensures created == old(created) && Linked()
      ensures Registered() == Started(old(Registered()), id, threadCreated).0
      ensures code == Started(old(Registered()), id, threadCreated).1
      ensures Valid()
    {
      hide Sound;
      StepKeepsSound(Registered(), Start(id, threadCreated));
      LookedUp(id);
      var t := FindUnderLock(id);
      if t == null { return -1; }
      if t.state != New { return -2; }
      t.state := Running;
      t.hasHandle := threadCreated;
      OneChanged(|created| - 1);
      assert Registered() == Started(old(Registered()), id, threadCreated).0;
      return if threadCreated then 0 else 1;
    }

    /** On failure the mutex stays locked. */
    method CancelThread(id: int, canceled: bool) returns (code: int)
      requires Valid() && Returns(Registered(), Cancel(id, canceled))
      modifies this`mutexHeld
      ensures created == old(created) && Linked()
      ensures Registered() == Canceled(old(Registered()), id, canceled).0
      ensures code == Canceled(old(Registered()), id, canceled).1
      ensures Valid()
    {
      hide Sound;
      StepKeepsSound(Registered(), Cancel(id, canceled));
      LookedUp(id);
      Lock();
      NothingChanged();
      var t := FindThreadFromIdInList(id);
      if t == null || !canceled || !t.hasHandle {
        return -1;
      }
      Unlock();
      NothingChanged();
      return 0;
    }

    /** Calls the registered destructors, each once and in order. */
    method CallDestructors(t: ThreadObject)
      modifies t`ran, t`destructorList
      ensures t.ran == old(t.ran + t.destructorList) && t.destructorList == []
    {
      while t.destructorList != []
        invariant t.ran + t.destructorList == old(t.ran + t.destructorList)
      {
        t.ran := t.ran + [t.destructorList[0]];
        t.destructorList := t.destructorList[1..];
        if t.destructorList == [] { break; }
      }
    }

    /**
     * The thread of the object ends: its destructor is called, and an object that nobody can join is released.
     * With more destructors than one, the source would go on from a list node that it has released.
     */
    method CleanupThread(t: ThreadObject, ghost i: nat)
      requires Valid() && i < |created| && t == created[i] && Returns(Registered(), Finish(i))
      requires |t.destructorList| <= 1
      modifies Footprint()
      ensures created == old(created) && Linked()
      ensures Registered() == Cleanup(old(Registered()), i)
      ensures Valid()
    {
      hide Sound, Cleanup, ThreadModule.Registered;
      ghost var r := Registered();
      ObjectAt(i);
      NotReleased(i);
      CleanupKeepsSound(r, i);
      CleanupIs(r, i);
      t.state := Dying;
      CallDestructors(t);
      if !t.isJoinable {
        Lock();
        Delete(t);
        Unlock();
        t.cleanupFrees := t.cleanupFrees + 1;
      }
      OneChanged(i);
    }

    /** What follows a successful pthread_join. */
    method ReleaseJoined(t: ThreadObject, ghost i: nat)
      requires Linked() && !mutexHeld && i < |created| && t == created[i] && t.joinFrees + t.cleanupFrees == 0
      modifies threadList`prev, threadList`next, this`mutexHeld, t`joinFrees
      ensures created == old(created) && Linked()
      ensures Registered() == Registry(
        old(Registered()).objects[i := old(Registered()).objects[i].(joinFrees := 1)], [], false)
    {
      Lock();
      Delete(t);
      Unlock();
      t.joinFrees := t.joinFrees + 1;
      OneChanged(i);
    }

    /** A join that succeeds has waited until the thread ended. */
    method JoinThread(id: int, outcome: JoinOutcome) returns (code: int)
      requires Valid() && Returns(Registered(), Join(id, outcome))
      requires Named(id) != null ==> |Named(id).destructorList| <= 1
      modifies Footprint()
      ensures created == old(created) && Linked()
      ensures Registered() == JoinedWith(old(Registered()), id, outcome).0
      ensures code == JoinedWith(old(Registered()), id, outcome).1
      ensures Valid()
    {
      hide Sound;
      StepKeepsSound(Registered(), Join(id, outcome));
      LookedUp(id);
      var t := FindUnderLock(id);
      if t == null { return -1; }
      if !t.isJoinable { return -2; }
      match outcome {
        case Joined =>
          if !t.hasHandle { return -1; }
          if t.state == Running {
            CleanupThread(t, |created| - 1);
          }
          ReleaseJoined(t, |created| - 1);
          return 0;
        case Deadlock => return -3;
        case NoThread => return -1;
        case OtherError => return -2;
      }
    }
  }
}
