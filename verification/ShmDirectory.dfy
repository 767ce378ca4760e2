/** The shared-memory directory as an object: fragment files, and a marker for each complete
    one. Its methods run without interference; `ShmProtocol` has their interleavings. */
module ShmDirectory {
  import opened LittleEndian
  import opened Fragment
  import opened FragmentName
  import opened Sequences
  import opened Options

  lemma FirstInOrder(names: set<Name>, n: Name)
    requires IsFirst(n, names)
    ensures n in names && forall m :: m in names - {n} ==> Precedes(Print(n), Print(m))
  {
  }

  class Directory {
    var data: map<Name, seq<Byte>>
    var markers: set<Name>

    constructor ()
      ensures data == map[] && markers == {}
    {
      data, markers := map[], {};
    }

    /** opens: whether the data file can be opened; written: bytes the one `write` takes. */
    method Store(n: Name, bytes: seq<Byte>, opens: bool, written: nat)
      requires written <= |bytes|
      modifies this
      ensures !opens ==> data == old(data) && markers == old(markers)
      ensures opens ==> data == old(data)[n := Overwrite(if n in old(data) then old(data)[n] else [], bytes[..written])]
      ensures opens ==> markers == old(markers) + if written == |bytes| then {n} else {}
    {
      if !opens {
        return;
      }
      if n !in data {
        data := data[n := []];
      }
      data := data[n := Overwrite(data[n], bytes[..written])];
      if written != |bytes| {
        return;
      }
      markers := markers + {n};
    }

    /** The names with a marker, in alphabetical order. */
    method Ls() returns (names: seq<Name>)
      ensures Alphabetical(names) && Distinct(names) && Elements(names) == markers
      // the earlier of two names is shorter or has the lesser character where they differ first
      ensures forall i, j :: 0 <= i < j < |names| ==> LessAtFirstDifference(Print(names[i]), Print(names[j]))
    {
      hide IsFirst, Precedes, Print, LessAtFirstDifference;
      names := [];
      var todo := markers;
      while todo != {}
        invariant todo <= markers && Alphabetical(names) && Elements(names) == markers - todo
        invariant forall i, m :: 0 <= i < |names| && m in todo ==> Precedes(Print(names[i]), Print(m))
        decreases todo
      {
        FirstExists(todo);
        var n :| IsFirst(n, todo);
        FirstInOrder(todo, n);
        ElementsPlus(names, n);
        names := names + [n];
        todo := todo - {n};
      }
      AlphabeticalIsDistinct(names);
      AlphabeticalByCharacter(names);
    }

    /** Nothing is removed when the data file cannot be opened. */
    method Pull(n: Name) returns (r: Option<seq<Byte>>)
      modifies this
      ensures n !in old(data) ==> r == None && data == old(data) && markers == old(markers)
      ensures n in old(data) ==>
          r == Some(OneRead(old(data)[n])) && data == old(data) - {n} && markers == old(markers) - {n}
    {
      if n !in data {
        return None;
      }
      r := Some(OneRead(data[n]));
      markers := markers - {n};
      data := data - {n};
    }

    /** Every name with a marker loses its data file, then its marker. */
    method Purge()
      modifies this
      ensures data == old(data) - old(markers) && markers == {}
    {
      var names := Ls();
      var i := 0;
      while i < |names|
        invariant 0 <= i <= |names|
        invariant data == old(data) - Elements(names[..i])
        invariant markers == old(markers) - Elements(names[..i])
      {
        assert Elements(names[..i + 1]) == Elements(names[..i]) + {names[i]};
        data := data - {names[i]};
        markers := markers - {names[i]};
        i := i + 1;
      }
      assert names[..|names|] == names;
    }
  }
}
