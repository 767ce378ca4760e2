/** The finite state machine: a table of transitions per command, and the current state. A
    callback is represented by a value of type A; the owner of the machine runs it. */
module Fsm {
  import opened Options

  datatype Transition<A> = Transition(initial: string, final: string, callback: A)

  type Table<A> = map<string, seq<Transition<A>>>

  /** One call of `addTransition`. */
  datatype Row<A> = Row(cmd: string, tr: Transition<A>)

  /** What the registrations mean: for a command and a state, the first row counts. */
  ghost function FirstRow<A>(rows: seq<Row<A>>, c: string, s: string): Option<Transition<A>> {
    if rows == [] then None
    else
      var (before, last) := (FirstRow(rows[..|rows| - 1], c, s), rows[|rows| - 1]);
      if before.Some? then before
      else if last.cmd == c && last.tr.initial == s then Some(last.tr)
      else None
  }

  lemma {:induction false} FirstRowIsRow<A>(rows: seq<Row<A>>, c: string, s: string)
    ensures var r := FirstRow(rows, c, s); r.Some? ==> Row(c, r.value) in rows && r.value.initial == s
  {
    if rows != [] {
      FirstRowIsRow(rows[..|rows| - 1], c, s);
    }
  }

  /** A transition counts if and only if some row has it for the command and state and no earlier
      row is for the two. */
  lemma {:induction false} FirstRowIsFirst<A>(rows: seq<Row<A>>, c: string, s: string, tr: Transition<A>)
    ensures FirstRow(rows, c, s) == Some(tr) <==>
            exists i :: 0 <= i < |rows| && rows[i] == Row(c, tr) && tr.initial == s
                        && forall j :: 0 <= j < i ==> rows[j].cmd != c || rows[j].tr.initial != s
    ensures FirstRow(rows, c, s) == None <==>
            forall j :: 0 <= j < |rows| ==> rows[j].cmd != c || rows[j].tr.initial != s
  {
    if rows != [] {
      var init := rows[..|rows| - 1];
      FirstRowIsFirst(init, c, s, tr);
      if FirstRow(init, c, s).Some? {
        FirstRowIsFirst(init, c, s, FirstRow(init, c, s).value);
      }
      assert forall j :: 0 <= j < |init| ==> init[j] == rows[j];
    }
  }

  /** In a table with one row for each command and state every row counts. */
  lemma RowCounts<A>(rows: seq<Row<A>>, i: nat)
    requires i < |rows|
    requires forall a, b :: 0 <= a < b < |rows| ==>
        rows[a].cmd != rows[b].cmd || rows[a].tr.initial != rows[b].tr.initial
    ensures FirstRow(rows, rows[i].cmd, rows[i].tr.initial) == Some(rows[i].tr)
  {
    hide FirstRow;
    FirstRowIsFirst(rows, rows[i].cmd, rows[i].tr.initial, rows[i].tr);
  }

  /** At most one transition for a command and an initial state. */
  ghost predicate OnePerState<A>(ts: seq<Transition<A>>) {
    forall i, j :: 0 <= i < j < |ts| ==> ts[i].initial != ts[j].initial
  }

  /** Table t holds, for each command and state, just the transition that counts. */
  ghost predicate Means<A(!new)>(t: Table<A>, rows: seq<Row<A>>) {
    && (forall c :: c in t ==> OnePerState(t[c]))
    && (forall c, tr :: c in t && tr in t[c] ==> FirstRow(rows, c, tr.initial) == Some(tr))
    && (forall c, s :: FirstRow(rows, c, s).Some? ==> c in t && FirstRow(rows, c, s).value in t[c])
  }

  lemma FirstRowAfter<A>(rows: seq<Row<A>>, row: Row<A>, c: string, s: string)
    ensures var before := FirstRow(rows, c, s);
            FirstRow(rows + [row], c, s)
            == if before.Some? then before else if row.cmd == c && row.tr.initial == s then Some(row.tr) else None
  {
  }

  /** A row for a command and a state that already have one changes nothing. */
  lemma MeansIgnored<A(!new)>(t: Table<A>, rows: seq<Row<A>>, row: Row<A>)
    requires Means(t, rows) && FirstRow(rows, row.cmd, row.tr.initial).Some?
    ensures Means(t, rows + [row])
  {
  }

  /** Any other row is appended. */
  lemma MeansAppended<A(!new)>(t: Table<A>, rows: seq<Row<A>>, row: Row<A>)
    requires Means(t, rows) && FirstRow(rows, row.cmd, row.tr.initial).None?
    ensures Means(t[row.cmd := (if row.cmd in t then t[row.cmd] else []) + [row.tr]], rows + [row])
  {
    hide FirstRow;
    var v := if row.cmd in t then t[row.cmd] else [];
    var t' := t[row.cmd := v + [row.tr]];
    forall i | 0 <= i < |v| ensures v[i].initial != row.tr.initial {
      assert v[i] in v;
    }
    forall c, s
      ensures FirstRow(rows + [row], c, s)
           == if row.cmd == c && row.tr.initial == s then Some(row.tr) else FirstRow(rows, c, s)
    {
      FirstRowAfter(rows, row, c, s);
    }
  }

  lemma NotListed<A(!new)>(t: Table<A>, rows: seq<Row<A>>, row: Row<A>)
    requires Means(t, rows)
    requires row.cmd in t ==> forall i :: 0 <= i < |t[row.cmd]| ==> t[row.cmd][i].initial != row.tr.initial
    ensures FirstRow(rows, row.cmd, row.tr.initial).None?
  {
    hide FirstRow;
    FirstRowIsRow(rows, row.cmd, row.tr.initial);
  }

  class Machine<A(!new)> {
    var state: string
    var transitions: Table<A>

    /** The registrations so far. */
    ghost var rows: seq<Row<A>>

    ghost predicate Valid()
      reads this
    {
      Means(transitions, rows)
    }

    constructor ()
      ensures Valid() && state == "CREATED" && rows == []
    {
      state, transitions, rows := "CREATED", map[], [];
    }

    method AddTransition(cmd: string, istate: string, fstate: string, f: A)
      requires Valid()
      modifies this`transitions, this`rows
      ensures Valid() && rows == old(rows) + [Row(cmd, Transition(istate, fstate, f))]
    {
      hide FirstRow;
      var tr := Transition(istate, fstate, f);
      ghost var row := Row(cmd, tr);
      if cmd in transitions {
        var v := transitions[cmd];
        var i := 0;
        while i < |v|
          invariant 0 <= i <= |v| && transitions == old(transitions) && rows == old(rows)
          invariant forall j :: 0 <= j < i ==> v[j].initial != istate
        {
          if v[i].initial == istate {
            assert FirstRow(rows, cmd, v[i].initial) == Some(v[i]);
            MeansIgnored(transitions, rows, row);
            rows := rows + [row];
            return;
          }
          i := i + 1;
        }
        NotListed(transitions, rows, row);
        MeansAppended(transitions, rows, row);
        transitions := transitions[cmd := v + [tr]];
      } else {
        NotListed(transitions, rows, row);
        MeansAppended(transitions, rows, row);
        assert [] + [tr] == [tr];
        transitions := transitions[cmd := [tr]];
      }
      rows := rows + [row];
    }

    /** The search of `processCommand` finds the transition that counts. */
    method Find(cmd: string) returns (r: Option<Transition<A>>)
      requires Valid()
      ensures r == FirstRow(rows, cmd, state)
    {
      hide FirstRow;
      ghost var row := FirstRow(rows, cmd, state);
      FirstRowIsRow(rows, cmd, state);
      if cmd !in transitions {
        return None;
      }
      var v := transitions[cmd];
      var i := 0;
      while i < |v|
        invariant 0 <= i <= |v|
        invariant forall j :: 0 <= j < i ==> v[j].initial != state
      {
        if v[i].initial == state {
          assert v[i] in v;
          return Some(v[i]);
        }
        i := i + 1;
      }
      r := None;
    }

    method SetState(s: string)
      modifies this`state
      ensures state == s
    {
      state := s;
    }

    /** The commands offered in the current state are exactly those `processCommand` accepts. */
    method AllowList() returns (names: set<string>)
      requires Valid()
      ensures forall c :: c in names <==> FirstRow(rows, c, state).Some?
    {
      hide FirstRow;
      names := {};
      var todo := transitions.Keys;
      while todo != {}
        invariant todo <= transitions.Keys
        invariant forall c :: c in names <==> c !in todo && FirstRow(rows, c, state).Some?
        decreases todo
      {
        var c :| c in todo;
        var r := Find(c);
        if r.Some? {
          names := names + {c};
        }
        todo := todo - {c};
      }
    }
  }

  /** A machine with a table of transitions, registered in order. */
  method NewMachine<A(!new)>(rows: seq<Row<A>>) returns (m: Machine<A>)
    ensures fresh(m) && m.Valid() && m.rows == rows && m.state == "CREATED"
  {
    hide Means;
    m := new Machine<A>();
    var i := 0;
    while i < |rows|
      invariant 0 <= i <= |rows| && m.Valid() && m.rows == rows[..i] && m.state == "CREATED"
      invariant fresh(m)
    {
      m.AddTransition(rows[i].cmd, rows[i].tr.initial, rows[i].tr.final, rows[i].tr.callback);
      i := i + 1;
    }
  }
}
