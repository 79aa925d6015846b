/**
 * The pandas DataFrame the evaluator writes into and the simulator reads:
 * an ordered list of uniquely named columns of one common length. Assigning
 * `df[name] = column` replaces an existing column where it stands, or
 * appends a new one at the end.
 */
module Frames {
  import opened Wrappers

  /** A numeric column (`None` is NaN) or a boolean column. */
  datatype Column = Numbers(nums: seq<Option<real>>) | Flags(bits: seq<bool>)

  function Length(c: Column): nat
  {
    match c
    case Numbers(v) => |v|
    case Flags(v) => |v|
  }

  /** One assignment `df[name] = column`. */
  datatype Write = Write(name: string, column: Column)

  /** The columns of a frame: their order and their contents. */
  datatype Table = Table(names: seq<string>, cols: map<string, Column>) {

    /** Names are distinct, name exactly the stored columns, and all columns have `rows` cells. */
    ghost predicate Valid(rows: nat)
    {
      && (forall i, j :: 0 <= i < j < |names| ==> names[i] != names[j])
      && (forall c :: c in cols <==> c in names)
      && (forall c :: c in cols ==> Length(cols[c]) == rows)
    }

    /** `df[w.name] = w.column`. */
    function Put(w: Write): (t: Table)
      ensures w.name in t.cols && t.cols[w.name] == w.column
      ensures forall c :: c != w.name ==> (c in t.cols <==> c in cols)
      ensures forall c :: c != w.name && c in cols ==> t.cols[c] == cols[c]
      ensures |names| <= |t.names| && t.names[..|names|] == names
      ensures t.names[|names|..] == if w.name in cols then [] else [w.name]
    {
      Table(if w.name in cols then names else names + [w.name], cols[w.name := w.column])
    }

    /** The assignments `ws`, in order. */
    function PutAll(ws: seq<Write>): Table
      decreases |ws|
    {
      if ws == [] then this else PutAll(ws[..|ws| - 1]).Put(ws[|ws| - 1])
    }
  }

  /** Assigning a column of the right length keeps a frame well formed. */
  lemma PutValid(t: Table, w: Write, rows: nat)
    requires t.Valid(rows) && Length(w.column) == rows
    ensures t.Put(w).Valid(rows)
  {
    var u := t.Put(w);
    forall i, j | 0 <= i < j < |u.names| ensures u.names[i] != u.names[j] {
      if j >= |t.names| {
        assert u.names[j] == w.name && u.names[i] == t.names[i];
      } else {
        assert u.names[i] == t.names[i] && u.names[j] == t.names[j];
      }
    }
    forall c ensures c in u.cols <==> c in u.names {
      if c in t.names {
        var k :| 0 <= k < |t.names| && t.names[k] == c;
        assert u.names[k] == c;
      }
      if c in u.names {
        var k :| 0 <= k < |u.names| && u.names[k] == c;
        if k < |t.names| { assert t.names[k] == c; }
      }
    }
  }

  /** Assigning columns of the right length keeps a frame well formed. */
  lemma {:induction false} PutAllValid(t: Table, ws: seq<Write>, rows: nat)
    requires t.Valid(rows)
    requires forall k :: 0 <= k < |ws| ==> Length(ws[k].column) == rows
    ensures t.PutAll(ws).Valid(rows)
    decreases |ws|
  {
    if ws != [] {
      PutAllValid(t, ws[..|ws| - 1], rows);
      PutValid(t.PutAll(ws[..|ws| - 1]), ws[|ws| - 1], rows);
    }
  }

  /** Two batches of assignments are the concatenated batch. */
  lemma {:induction false} PutAllAppend(t: Table, a: seq<Write>, b: seq<Write>)
    ensures t.PutAll(a + b) == t.PutAll(a).PutAll(b)
    decreases |b|
  {
    if b == [] {
      assert a + b == a;
    } else {
      assert (a + b)[..|a + b| - 1] == a + b[..|b| - 1];
      PutAllAppend(t, a, b[..|b| - 1]);
    }
  }

  /** One and two assignments, spelled out. */
  lemma PutAllShort(t: Table, a: Write, b: Write)
    ensures t.PutAll([a]) == t.Put(a)
    ensures t.PutAll([a, b]) == t.Put(a).Put(b)
  {
    assert [a][..0] == [];
    assert [a, b][..1] == [a];
  }

  /** A column no assignment names keeps its presence and its contents. */
  lemma {:induction false} PutAllUntouched(t: Table, ws: seq<Write>, name: string)
    requires forall k :: 0 <= k < |ws| ==> ws[k].name != name
    ensures name in t.PutAll(ws).cols <==> name in t.cols
    ensures name in t.cols ==> t.PutAll(ws).cols[name] == t.cols[name]
    decreases |ws|
  {
    if ws != [] {
      PutAllUntouched(t, ws[..|ws| - 1], name);
    }
  }

  /** A column that a second batch of assignments does not name keeps what the first batch left. */
  lemma KeptAcross(t: Table, a: seq<Write>, b: seq<Write>, name: string)
    requires name in t.PutAll(a).cols
    requires forall k :: 0 <= k < |b| ==> b[k].name != name
    ensures name in t.PutAll(a + b).cols && t.PutAll(a + b).cols[name] == t.PutAll(a).cols[name]
  {
    PutAllAppend(t, a, b);
    PutAllUntouched(t.PutAll(a), b, name);
  }

  /** Two batches that do not name a column do not name it together either. */
  lemma AvoidsAppend(a: seq<Write>, b: seq<Write>, name: string)
    requires forall k :: 0 <= k < |a| ==> a[k].name != name
    requires forall k :: 0 <= k < |b| ==> b[k].name != name
    ensures forall k :: 0 <= k < |a + b| ==> (a + b)[k].name != name
  {
    forall k | 0 <= k < |a + b| ensures (a + b)[k].name != name {
      if k >= |a| {
        assert (a + b)[k] == b[k - |a|];
      }
    }
  }

  /** A DataFrame: the open prices it was fetched with and its derived columns. */
  class Frame {
    /** The open price of each bar; its length is the number of rows. */
    const open: seq<real>
    var names: seq<string>
    var cols: map<string, Column>

    function View(): Table
      reads this
    {
      Table(names, cols)
    }

    ghost predicate Valid()
      reads this
    {
      View().Valid(|open|)
    }

    /** A frame holding the fetched bars and no derived column yet. */
    constructor (open: seq<real>)
      ensures Valid() && this.open == open && View() == Table([], map[])
    {
      this.open := open;
      names := [];
      cols := map[];
    }

    /** `df[w.name] = w.column`. */
    method Put(w: Write)
      requires Valid() && Length(w.column) == |open|
      modifies this
      ensures Valid() && View() == old(View()).Put(w)
    {
      PutValid(View(), w, |open|);
      if w.name !in cols {
        names := names + [w.name];
      }
      cols := cols[w.name := w.column];
    }
  }
}
