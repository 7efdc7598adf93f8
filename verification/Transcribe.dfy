/** The recording fault manager (plugins/transcribe/transcribe.c): it wraps another manager. */
module Transcribe {
  import opened Options
  import opened Sequences
  import opened CStrings
  import opened Numerals
  import opened Delivery
  import opened Transcript

  /** The text of the first `n` component fields of a node. */
  lemma FieldsSnoc(names: seq<string>, n: nat)
    requires n < |names|
    ensures Fields(names[..n + 1]) == Fields(names[..n]) + "," + names[n]
  {
    FieldsAppend(names[..n], [names[n]]);
    assert names[..n + 1] == names[..n] + [names[n]];
    assert Fields([names[n]]) == "," + names[n] + Fields([names[n]][1..]);
  }

  lemma {:induction false} FieldsAppend(a: seq<string>, b: seq<string>)
    ensures Fields(a + b) == Fields(a) + Fields(b)
  {
    if a == [] {
      assert a + b == b;
    } else {
      FieldsAppend(a[1..], b);
      HeadOfAppend(a, b);
      ConcatAssociates("," + a[0], Fields(a[1..]), Fields(b));
    }
  }

  lemma FlattenSnoc(parts: seq<string>, part: string)
    ensures Flatten(parts + [part]) == Flatten(parts) + part
  {
    FlattenAppend(parts, [part]);
    FlattenCons(part, []);
    assert [part] + [] == [part];
  }

  lemma NothingFlat()
    ensures Flatten([]) == "" && Fields([]) == ""
  {
  }

  class Transcriber {
    var file: string
    var ticNum: nat

    constructor ()
      ensures file == "" && ticNum == 0
    {
      file, ticNum := "", 0;
    }

    /** Hands on the nested manager's nodes, and writes them when there are any. */
    method GetNodes(nested: Result<NodeTable, int>) returns (r: Result<NodeTable, int>)
      modifies this`file
      ensures r == nested
      ensures file == old(file) + if nested.Ok? then Flatten(TableLines(nested.value)) else ""
    {
      hide NodeLine, Decimal, Flatten, Fields;
      if nested.Ok? {
        var table := nested.value;
        file := file + Decimal(|table|) + "\n";
        FlattenCons(Decimal(|table|) + "\n", []);
        NothingFlat();
        for i := 0 to |table|
          invariant file == old(file) + Flatten([Decimal(|table|) + "\n"] + Map(NodeLine, table[..i]))
        {
          label Before:
          var node := table[i];
          file := file + node.name + "," + Decimal(|node.components|);
          for j := 0 to |node.components|
            invariant file == old@Before(file) + (node.name + "," + Decimal(|node.components|)
                                                  + Fields(node.components[..j]))
          {
            file := file + "," + node.components[j];
            FieldsSnoc(node.components, j);
          }
          file := file + "\n";
          assert node.components[..|node.components|] == node.components;
          WrittenNode(old@Before(file), node);
          var before := [Decimal(|table|) + "\n"] + Map(NodeLine, table[..i]);
          FlattenSnoc(before, NodeLine(node));
          assert before + [NodeLine(node)] == [Decimal(|table|) + "\n"] + Map(NodeLine, table[..i + 1]);
        }
        assert table[..|table|] == table;
      }
      r := nested;
    }

    /** Writes the marker of the tic; then the nested manager's `tic` runs. */
    method Tic()
      modifies this
      ensures file == old(file) + MarkerLine(old(ticNum)) && ticNum == old(ticNum) + 1
    {
      file := file + "[tic#" + Decimal(ticNum) + "]\n";
      ticNum := ticNum + 1;
    }

    /** Hands on the faults the nested manager returned, after writing them down. */
    method GetFail(nested: seq<Fault>) returns (failed: seq<Fault>)
      modifies this`file
      ensures failed == nested
      ensures file == old(file) + Flatten(Map(FaultLine, Records(nested)))
    {
      NothingFlat();
      hide FaultLine, Flatten, SignedDecimal, AsInt32;
      failed := nested;
      for i := 0 to |failed|
        invariant file == old(file) + Flatten(Map(FaultLine, Records(failed[..i])))
      {
        var flt := failed[i].record;
        label Before:
        file := file + flt.node + "," + (match flt.component case None => "" case Some(c) => c)
              + "," + SignedDecimal(AsInt32(flt.severity)) + "\n";
        WrittenFault(old@Before(file), flt);
        var before := Map(FaultLine, Records(failed[..i]));
        FlattenSnoc(before, FaultLine(flt));
        assert before + [FaultLine(flt)] == Map(FaultLine, Records(failed[..i + 1]));
      }
      assert failed[..|failed|] == failed;
    }
  }

  lemma WrittenFault(file: string, f: Record)
    ensures file + f.node + "," + (match f.component case None => "" case Some(c) => c)
            + "," + SignedDecimal(AsInt32(f.severity)) + "\n" == file + FaultLine(f)
  {
    hide SignedDecimal, AsInt32;
  }

  lemma WrittenNode(file: string, n: NodeInfo)
    ensures file + (n.name + "," + Decimal(|n.components|) + Fields(n.components)) + "\n" == file + NodeLine(n)
  {
    hide Decimal, Fields;
  }
}
