/**
 * The interpreter's LIFO stack (the nested `Stack` class of run/Interpreter.kt), backed
 * by a list whose last element is the top. Popping or peeking an empty stack raises the
 * host's index exception.
 */
module Stacks {
  import opened Wrappers
  import opened RuntimeValues

  const EmptyStack: RunError := HostException("Index out of bounds")

  class Stack<T> {
    var store: seq<T>

    constructor()
      ensures store == []
    {
      store := [];
    }

    method Push(x: T)
      modifies this
      ensures store == old(store) + [x]
    {
      store := store + [x];
    }

    method Pop() returns (r: Result<T, RunError>)
      modifies this
      ensures old(store) != [] ==> r == Success(old(store)[|old(store)| - 1]) && store == old(store)[..|old(store)| - 1]
      ensures old(store) == [] ==> r == Failure(EmptyStack) && store == old(store)
    {
      if store == [] {
        r := Failure(EmptyStack);
      } else {
        r := Success(store[|store| - 1]);
        store := store[..|store| - 1];
      }
    }

    /** The top value; the stack is unchanged. */
    method Peek() returns (r: Result<T, RunError>)
      ensures store != [] ==> r == Success(store[|store| - 1])
      ensures store == [] ==> r == Failure(EmptyStack)
    {
      if store == [] {
        r := Failure(EmptyStack);
      } else {
        r := Success(store[|store| - 1]);
      }
    }
  }

  /** A push followed by a pop gives back the pushed value and the stack as it was. */
  method PushPop<T>(s: Stack<T>, x: T) returns (r: Result<T, RunError>)
    modifies s
    ensures r == Success(x) && s.store == old(s.store)
  {
    s.Push(x);
    r := s.Pop();
    assert s.store == old(s.store);
  }
}
