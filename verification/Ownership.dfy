/** The registry of managed and unmanaged VMs, in memory and on disk (src/state.rs). */
module Ownership {
  import opened Common

  /** The two recorded sets, as a value. */
  datatype Registry = Registry(managed: set<string>, unmanaged: set<string>) {

    /** What the registry says of `id`. */
    function Classification(id: string): Option<bool> {
      if id in managed then Some(true)
      else if id in unmanaged then Some(false)
      else None
    }

    predicate Disjoint() {
      managed !! unmanaged
    }

    function Recorded(id: string, isManaged: bool): Registry {
      if isManaged then this.(managed := managed + {id}) else this.(unmanaged := unmanaged + {id})
    }
  }

  const EMPTY_REGISTRY := Registry({}, {})

  /** Nothing that `before` records is different in `after`. */
  ghost predicate Extends(before: Registry, after: Registry) {
    forall id :: before.Classification(id).Some? ==> after.Classification(id) == before.Classification(id)
  }

  /** In-memory classifications. */
  class VmOwnership {
    var managedVms: set<string>
    var unmanagedVms: set<string>

    ghost function View(): Registry
      reads this
    {
      Registry(managedVms, unmanagedVms)
    }

    constructor (r: Registry)
      ensures View() == r
    {
      managedVms, unmanagedVms := r.managed, r.unmanaged;
    }

    method Classification(id: string) returns (r: Option<bool>)
      ensures r == View().Classification(id)
      ensures r == Some(true) <==> id in managedVms
      ensures r == Some(false) <==> id !in managedVms && id in unmanagedVms
    {
      if id in managedVms {
        return Some(true);
      }
      if id in unmanagedVms {
        return Some(false);
      }
      return None;
    }

    /** Classify a VM for good; one that has a classification is refused. */
    method Record(id: string, isManaged: bool) returns (ok: bool)
      modifies this
      ensures ok == old(View()).Classification(id).None?
      ensures View() == if ok then old(View()).Recorded(id, isManaged) else old(View())
      ensures ok ==> View().Classification(id) == Some(isManaged) && Extends(old(View()), View())
      ensures old(managedVms) !! old(unmanagedVms) ==> managedVms !! unmanagedVms
    {
      var known := Classification(id);
      if known.Some? {
        return false;
      }
      if isManaged {
        managedVms := managedVms + {id};
      } else {
        unmanagedVms := unmanagedVms + {id};
      }
      return true;
    }
  }

  /** The outcome of a load. */
  datatype Loaded = Loaded(registry: Registry) | Unreadable | Overlapping

  /** The registry file: absent, or one complete registry replaced atomically. */
  class VmStateStore {
    var file: Option<Registry>

    constructor (file: Option<Registry>)
      ensures this.file == file
    {
      this.file := file;
    }

    /** What a load finds: an absent file is an empty registry. */
    ghost function Contents(): Registry
      reads this
    {
      match file
      case None => EMPTY_REGISTRY
      case Some(r) => r
    }

    /** Read the registry back, unless the file cannot be read or parsed, or classifies a VM both ways. */
    method Load(readable: bool) returns (r: Loaded)
      ensures r == if file.Some? && !readable then Unreadable
                   else if Contents().managed !! Contents().unmanaged then Loaded(Contents())
                   else Overlapping
    {
      match file {
        case None => return Loaded(EMPTY_REGISTRY);
        case Some(state) =>
          if !readable {
            return Unreadable;
          }
          return if state.Disjoint() then Loaded(state) else Overlapping;
      }
    }

    /** Replace the registry; a rejected registry or a failed write changes nothing. */
    method Save(state: Registry, ioOk: bool) returns (ok: bool)
      modifies this
      ensures ok == (ioOk && state.managed !! state.unmanaged)
      ensures Contents() == if ok then state else old(Contents())
    {
      ok := ioOk && state.Disjoint();
      if ok {
        file := Some(state);
      }
    }
  }
}
