/** SensorEvent: one reading as the firmware passes it around — a pointer to the Quaternion
    holding the values, the reading's name and the body location of the node. */
module Event {
  import opened Common
  import opened Defines

  /** The state of a raw C++ pointer field: never written, nullptr, or the address of an object. */
  datatype Pointer = Unset | Null | Points(target: Quaternion)

  function ToPointer(q: Quaternion?): (p: Pointer)
    ensures p.Unset? == false
    ensures p.Null? <==> q == null
    ensures p.Points? ==> p.target == q
  {
    if q == null then Null else Points(q)
  }

  class SensorEvent {
    var obj: Pointer
    var name: string
    /** The stored devLocation byte; None while the field has never been written. */
    var loc: Option<byte>

    /** The default constructor: the name is the empty std::string, obj and loc stay unset. */
    constructor Default()
      ensures obj == Unset && name == "" && loc == None
    {
      obj := Unset;
      name := "";
      loc := None;
    }

    /** The three-argument constructor stores the object, the name and the location. */
    constructor Make(q: Quaternion?, n: string, l: byte)
      ensures obj == ToPointer(q) && name == n && loc == Some(l)
    {
      obj := ToPointer(q);
      name := n;
      loc := Some(l);
    }

    /** The copy constructor copies the name and, when the source's obj is not null, the
        pointer itself (so the copy shares the Quaternion); the location is not copied. */
    constructor Copy(s: SensorEvent)
      requires s.obj != Unset
      ensures name == s.name
      ensures s.obj.Points? ==> obj == s.obj
      ensures s.obj.Null? ==> obj == Unset
      ensures loc == None
    {
      name := s.name;
      loc := None;
      if s.obj != Null {
        obj := s.obj;
      } else {
        obj := Unset;
      }
    }

    /** The destructor deletes obj exactly when it is not null; the object deleted is returned.
        An unset obj would be read uninitialised, so it must have been set before. */
    method Destroy() returns (deleted: Option<Quaternion>)
      requires obj != Unset
      ensures deleted.Some? <==> obj.Points?
      ensures deleted.Some? ==> deleted.value == obj.target
    {
      if obj != Null {
        deleted := Some(obj.target);
      } else {
        deleted := None;
      }
    }

    /** GetObject dereferences obj, so obj must point to an object. */
    function GetObject(): (q: Quaternion)
      reads this
      requires obj.Points?
      ensures ToPointer(q) == obj
    {
      obj.target
    }

    function GetName(): string
      reads this
    {
      name
    }

    /** GetLocation looks the stored byte up with map::at, which throws (None here) for a
        byte outside 0..8. */
    function GetLocation(): (r: Option<string>)
      reads this
      requires loc.Some?
      ensures r.Some? <==> loc.value <= 8
      ensures r.Some? ==> r.value == locationToString[loc.value]
    {
      LocationTableTotalInjective();
      if loc.value in locationToString then Some(locationToString[loc.value]) else None
    }

    method SetObj(o: Quaternion?)
      modifies this
      ensures o != null ==> obj.Points? && GetObject() == o
      ensures o == null ==> obj == Null
      ensures name == old(name) && loc == old(loc)
    {
      obj := ToPointer(o);
    }

    method SetName(n: string)
      modifies this
      ensures GetName() == n
      ensures obj == old(obj) && loc == old(loc)
    {
      name := n;
    }

    method SetLocation(l: byte)
      modifies this
      ensures loc == Some(l)
      ensures obj == old(obj) && name == old(name)
    {
      loc := Some(l);
    }
  }

  /** An event and its copy both delete the same Quaternion when they are destroyed: the
      copy shares the pointer instead of owning a copy of the object. */
  method CopyThenDestroyBoth(q: Quaternion, n: string, l: byte)
    returns (first: Option<Quaternion>, second: Option<Quaternion>)
    ensures first == Some(q) && second == Some(q)
  {
    var original := new SensorEvent.Make(q, n, l);
    var copy := new SensorEvent.Copy(original);
    first := original.Destroy();
    second := copy.Destroy();
  }
}
