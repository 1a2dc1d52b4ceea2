/** The listener registry behind `window.ipcRenderer.receive`: registering a
    listener on a named channel hands back a handle, and calling the handle
    removes that listener. The cross-process transport itself is not part of
    this model; only this interface is. */
module Ipc {

  type Handle = nat

  class Renderer {
    /** The live listeners: handle -> channel it listens on. */
    var listeners: map<Handle, string>
    /** The next handle to hand out; every live handle is below it. */
    var nextHandle: Handle

    ghost predicate Valid()
      reads this
    {
      forall h :: h in listeners ==> h < nextHandle
    }

    constructor ()
      ensures Valid() && listeners == map[]
    {
      listeners := map[];
      nextHandle := 0;
    }

    /** Registers a listener on `channel`; the handle is new. */
    method Receive(channel: string) returns (h: Handle)
      requires Valid()
      modifies this
      ensures Valid()
      ensures h !in old(listeners)
      ensures listeners == old(listeners)[h := channel]
    {
      h := nextHandle;
      listeners := listeners[h := channel];
      nextHandle := nextHandle + 1;
    }

    /** Calls the unsubscribe handle `h`: removes that listener and no other. */
    method Unsubscribe(h: Handle)
      requires Valid()
      modifies this
      ensures Valid()
      ensures listeners == old(listeners) - {h}
    {
      listeners := listeners - {h};
    }
  }
}
