/**
 * A device: the members it offers, each under its own path.  A member is
 * either an attribute or an action; paths are unique across both.
 */
module Devices {
  import opened Wrappers
  import opened DeviceErrors
  import opened Attributes

  datatype Member = AttributeMember(attribute: Attribute) | ActionMember(action: Action)

  /**
   * `entries` lists every (path, member) pair of `m` exactly once, in some
   * order.
   */
  ghost predicate Enumerates(entries: seq<(string, Member)>, m: map<string, Member>)
  {
    && (forall i :: 0 <= i < |entries| ==> entries[i].0 in m && m[entries[i].0] == entries[i].1)
    && (forall i, j :: 0 <= i < j < |entries| ==> entries[i].0 != entries[j].0)
    && (forall path :: path in m ==> exists i :: 0 <= i < |entries| && entries[i].0 == path)
  }

  class Device {
    var members: map<string, Member>

    /** A device with no members. */
    constructor()
      ensures members == map[]
    {
      members := map[];
    }

    /** The member at `path`, if there is one. */
    function Get(path: string): (r: Option<Member>)
      reads this
      ensures r.Some? <==> path in members
      ensures r.Some? ==> r.value == members[path]
    {
      if path in members then Some(members[path]) else None
    }

    /**
     * Adds `member` under `path`.  A path already in use is refused with
     * `PathExists` and the device is left as it was.
     */
    method Insert(path: string, member: Member) returns (r: Result<(), DeviceError>)
      modifies this
      ensures path in old(members) ==> r == Failure(PathExists(path)) && members == old(members)
      ensures path !in old(members) ==> r == Success(()) && members == old(members)[path := member]
      ensures r.Success? ==> Get(path) == Some(member)
    {
      if path in members {
        r := Failure(PathExists(path));
      } else {
        members := members[path := member];
        r := Success(());
      }
    }

    /**
     * Removes the member at `path`.  An unknown path is refused with
     * `PathNotFound` and the device is left as it was.
     */
    method Remove(path: string) returns (r: Result<(), DeviceError>)
      modifies this
      ensures path !in old(members) ==> r == Failure(PathNotFound(path)) && members == old(members)
      ensures path in old(members) ==> r == Success(()) && members == old(members) - {path}
      ensures Get(path) == None
    {
      if path in members {
        members := members - {path};
        r := Success(());
      } else {
        r := Failure(PathNotFound(path));
      }
    }

    /**
     * The members as (path, member) pairs.  A hash map fixes no order, so
     * the order here is arbitrary; what is promised is that each pair comes
     * exactly once.
     */
    method Iter() returns (entries: seq<(string, Member)>)
      ensures |entries| == |members|
      ensures Enumerates(entries, members)
    {
      var remaining := members.Keys;
      entries := [];
      while remaining != {}
        invariant remaining <= members.Keys
        invariant |entries| + |remaining| == |members|
        invariant forall i :: 0 <= i < |entries| ==>
          entries[i].0 in members.Keys - remaining && members[entries[i].0] == entries[i].1
        invariant forall i, j :: 0 <= i < j < |entries| ==> entries[i].0 != entries[j].0
        invariant forall path :: path in members.Keys - remaining ==>
          exists i :: 0 <= i < |entries| && entries[i].0 == path
        decreases |remaining|
      {
        var path :| path in remaining;
        var listed, unlisted := entries, remaining;
        entries := entries + [(path, members[path])];
        remaining := remaining - {path};
        forall p | p in members.Keys - remaining
          ensures exists i :: 0 <= i < |entries| && entries[i].0 == p
        {
          if p == path {
            assert entries[|listed|].0 == p;
          } else {
            assert p in members.Keys - unlisted;
            var i :| 0 <= i < |listed| && listed[i].0 == p;
            assert entries[i].0 == p;
          }
        }
      }
      assert members.Keys - remaining == members.Keys;
    }
  }
}
