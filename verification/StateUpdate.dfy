/** src/fhemamba/tensor_ops.py, ssm_update_readout: a dense state against one split along its heads. */
module StateUpdate {
  import opened Sums
  import opened RankOne

  /** A rank-one write; value already carries its coefficient. */
  datatype Write = Write(key: Row, value: Row)

  /** What one head receives in a step. */
  datatype HeadInput = HeadInput(decay: real, writes: seq<Write>, query: Row)

  predicate Fits(m: Matrix, input: HeadInput) {
    && (forall p :: 0 <= p < |m| ==> |m[p]| == |input.query|)
    && forall k :: 0 <= k < |input.writes| ==> |input.writes[k].key| == |input.query| && |input.writes[k].value| == |m|
  }

  /** Decay, then the writes one after the other. */
  function UpdatedRow(row: Row, decay: real, writes: seq<Write>, p: nat): (r: Row)
    requires forall k :: 0 <= k < |writes| ==> |writes[k].key| == |row| && p < |writes[k].value|
    ensures |r| == |row|
    decreases |writes|
  {
    if |writes| == 0 then Scaled(decay, row) else
      var w := writes[|writes| - 1];
      Plus(UpdatedRow(row, decay, writes[..|writes| - 1], p), w.value[p], w.key)
  }

  function UpdatedHead(m: Matrix, input: HeadInput): (r: Matrix)
    requires Fits(m, input)
    ensures |r| == |m| && forall p :: 0 <= p < |r| ==> |r[p]| == |input.query|
  {
    seq(|m|, p requires 0 <= p < |m| => UpdatedRow(m[p], input.decay, input.writes, p))
  }

  predicate AllFit(heads: seq<Matrix>, inputs: seq<HeadInput>) {
    |heads| == |inputs| && forall h :: 0 <= h < |heads| ==> Fits(heads[h], inputs[h])
  }

  function UpdatedHeads(heads: seq<Matrix>, inputs: seq<HeadInput>): seq<Matrix>
    requires AllFit(heads, inputs)
  {
    seq(|heads|, h requires 0 <= h < |heads| => UpdatedHead(heads[h], inputs[h]))
  }

  function ReadHeads(heads: seq<Matrix>, inputs: seq<HeadInput>): seq<Row>
    requires AllFit(heads, inputs)
  {
    seq(|heads|, h requires 0 <= h < |heads| => Readout(UpdatedHead(heads[h], inputs[h]), inputs[h].query))
  }

  function Flat<T>(blocks: seq<seq<T>>): seq<T>
    decreases |blocks|
  {
    if |blocks| == 0 then [] else Flat(blocks[..|blocks| - 1]) + blocks[|blocks| - 1]
  }

  lemma FlatPush<T>(blocks: seq<seq<T>>, block: seq<T>)
    ensures Flat(blocks + [block]) == Flat(blocks) + block
  {
    assert (blocks + [block])[..|blocks|] == blocks;
  }

  lemma {:induction false} FlatPrefix<T>(blocks: seq<seq<T>>, k: nat)
    requires k <= |blocks|
    ensures |Flat(blocks[..k])| <= |Flat(blocks)| && Flat(blocks[..k]) == Flat(blocks)[..|Flat(blocks[..k])|]
    decreases |blocks|
  {
    if k == |blocks| {
      assert blocks[..k] == blocks;
    } else {
      var n := |blocks| - 1;
      FlatPrefix(blocks[..n], k);
      assert blocks[..n][..k] == blocks[..k];
    }
  }

  /** Blocks keep whole heads, so updating them one by one is the dense update. */
  method UpdateTiled(blocks: seq<seq<Matrix>>, inputs: seq<HeadInput>) returns (next: seq<seq<Matrix>>, outputs: seq<Row>)
    requires AllFit(Flat(blocks), inputs)
    ensures |next| == |blocks| && forall k :: 0 <= k < |blocks| ==> |next[k]| == |blocks[k]|
    ensures Flat(next) == UpdatedHeads(Flat(blocks), inputs) && outputs == ReadHeads(Flat(blocks), inputs)
  {
    hide UpdatedHead, Readout, Fits;
    next, outputs := [], [];
    var offset := 0;
    ghost var heads := Flat(blocks);
    for k := 0 to |blocks|
      invariant |next| == k && forall j :: 0 <= j < k ==> |next[j]| == |blocks[j]|
      invariant offset == |Flat(blocks[..k])| <= |heads| && Flat(blocks[..k]) == heads[..offset]
      invariant AllFit(heads[..offset], inputs[..offset])
      invariant Flat(next) == UpdatedHeads(heads[..offset], inputs[..offset])
      invariant outputs == ReadHeads(heads[..offset], inputs[..offset])
    {
      var block := blocks[k];
      assert blocks[..k + 1] == blocks[..k] + [block];
      FlatPush(blocks[..k], block);
      FlatPrefix(blocks, k + 1);
      var end := offset + |block|;
      assert heads[..end] == heads[..offset] + block;
      assert inputs[..end] == inputs[..offset] + inputs[offset..end];
      BlockFits(heads, inputs, offset, end);
      assert heads[offset..end] == block;
      var updated := UpdatedHeads(block, inputs[offset..end]);
      FlatPush(next, updated);
      next := next + [updated];
      outputs := outputs + ReadHeads(block, inputs[offset..end]);
      offset := end;
    }
    assert blocks[..|blocks|] == blocks && heads[..offset] == heads && inputs[..offset] == inputs;
  }

  lemma BlockFits(heads: seq<Matrix>, inputs: seq<HeadInput>, offset: nat, end: nat)
    requires AllFit(heads, inputs) && offset <= end <= |heads|
    ensures AllFit(heads[offset..end], inputs[offset..end]) && AllFit(heads[..end], inputs[..end]) && AllFit(heads[..offset], inputs[..offset])
    ensures UpdatedHeads(heads[..end], inputs[..end])
         == UpdatedHeads(heads[..offset], inputs[..offset]) + UpdatedHeads(heads[offset..end], inputs[offset..end])
    ensures ReadHeads(heads[..end], inputs[..end])
         == ReadHeads(heads[..offset], inputs[..offset]) + ReadHeads(heads[offset..end], inputs[offset..end])
  {
    hide UpdatedHead, Readout, Fits;
  }
}
