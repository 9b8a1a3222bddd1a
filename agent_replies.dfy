/** The messages the platform sends back for a DataMiner-info request, and the filter that keeps
    only the per-agent DataMiner-info responses. */
module AgentReplies {

  /** One message of the reply. `Other` is any message of another type, and also a null entry,
      which a type filter drops just the same. */
  datatype Message = DataMinerInfo(isSwarmingEnabled: bool) | Other

  /** The swarming flags of the DataMiner-info responses, in reply order (OfType followed by ToArray). */
  function InfoFlags(resp: seq<Message>): (flags: seq<bool>)
    ensures |flags| <= |resp|
    ensures flags == [] <==> forall i :: 0 <= i < |resp| ==> resp[i].Other?
  {
    if resp == [] then []
    else
      var rest := InfoFlags(resp[1..]);
      assert forall i :: 1 <= i < |resp| ==> resp[i] == resp[1..][i - 1];
      match resp[0]
      case DataMinerInfo(enabled) => [enabled] + rest
      case Other => rest
  }

  /** Filtering distributes over concatenation: the filter never reorders messages. */
  lemma {:induction false} InfoFlagsAppend(a: seq<Message>, b: seq<Message>)
    ensures InfoFlags(a + b) == InfoFlags(a) + InfoFlags(b)
  {
    if a == [] {
      assert a + b == b;
    } else {
      assert (a + b)[1..] == a[1..] + b;
      InfoFlagsAppend(a[1..], b);
    }
  }

  /** Each position increased by one. */
  function Shifted(s: seq<nat>): (r: seq<nat>)
    ensures |r| == |s| && forall k :: 0 <= k < |s| ==> r[k] == s[k] + 1
  {
    seq(|s|, k requires 0 <= k < |s| => s[k] + 1)
  }

  /** The positions in the reply of its DataMiner-info responses, in increasing order. */
  function InfoPositions(resp: seq<Message>): seq<nat>
  {
    if resp == [] then []
    else (if resp[0].DataMinerInfo? then [0] else []) + Shifted(InfoPositions(resp[1..]))
  }

  /** The filter keeps exactly the DataMiner-info responses, in their order: the k-th kept flag is
      that of the k-th DataMiner-info message, those messages sit at strictly increasing positions,
      and no DataMiner-info message is skipped. */
  lemma InfoFlagsInOrder(resp: seq<Message>)
    ensures |InfoPositions(resp)| == |InfoFlags(resp)|
    ensures forall k :: 0 <= k < |InfoPositions(resp)| ==>
              InfoPositions(resp)[k] < |resp| &&
              resp[InfoPositions(resp)[k]] == DataMinerInfo(InfoFlags(resp)[k])
    ensures forall j, k :: 0 <= j < k < |InfoPositions(resp)| ==> InfoPositions(resp)[j] < InfoPositions(resp)[k]
    ensures forall i :: 0 <= i < |resp| && resp[i].DataMinerInfo? ==> i in InfoPositions(resp)
  {
    InfoPositionsSelect(resp);
    InfoPositionsIncreasing(resp);
    InfoPositionsComplete(resp);
  }

  /** There is one position per kept flag. */
  lemma {:induction false} InfoPositionsLength(resp: seq<Message>)
    ensures |InfoPositions(resp)| == |InfoFlags(resp)|
  {
    if resp != [] {
      InfoPositionsLength(resp[1..]);
    }
  }

  /** The k-th position holds the message whose flag is the k-th kept flag. */
  lemma {:induction false} InfoPositionsSelect(resp: seq<Message>)
    ensures |InfoPositions(resp)| == |InfoFlags(resp)|
    ensures forall k :: 0 <= k < |InfoPositions(resp)| ==>
              InfoPositions(resp)[k] < |resp| &&
              resp[InfoPositions(resp)[k]] == DataMinerInfo(InfoFlags(resp)[k])
  {
    InfoPositionsLength(resp);
    if resp != [] {
      var tail := resp[1..];
      InfoPositionsSelect(tail);
      var tp, tf := InfoPositions(tail), InfoFlags(tail);
      var sp := Shifted(tp);
      var pos, flags := InfoPositions(resp), InfoFlags(resp);
      var d := if resp[0].DataMinerInfo? then 1 else 0;
      assert |pos| == d + |tp|;
      forall k | 0 <= k < |pos|
        ensures pos[k] < |resp| && resp[pos[k]] == DataMinerInfo(flags[k])
      {
        if k < d {
          assert pos[k] == 0;
          assert flags == [resp[0].isSwarmingEnabled] + tf;
        } else {
          assert pos[k] == sp[k - d] == tp[k - d] + 1;
          assert flags[k] == tf[k - d];
          assert resp[pos[k]] == tail[tp[k - d]];
        }
      }
    }
  }

  /** The positions are strictly increasing. */
  lemma {:induction false} InfoPositionsIncreasing(resp: seq<Message>)
    ensures forall j, k :: 0 <= j < k < |InfoPositions(resp)| ==> InfoPositions(resp)[j] < InfoPositions(resp)[k]
  {
    if resp != [] {
      var tail := resp[1..];
      InfoPositionsIncreasing(tail);
      var sp := Shifted(InfoPositions(tail));
      var pos := InfoPositions(resp);
      if resp[0].DataMinerInfo? {
        assert pos == [0] + sp;
        assert forall k :: 1 <= k < |pos| ==> pos[k] == sp[k - 1] && 0 < pos[k];
      } else {
        assert pos == sp;
      }
    }
  }

  /** Every DataMiner-info message appears among the positions. */
  lemma {:induction false} InfoPositionsComplete(resp: seq<Message>)
    ensures forall i :: 0 <= i < |resp| && resp[i].DataMinerInfo? ==> i in InfoPositions(resp)
  {
    if resp != [] {
      var tail := resp[1..];
      InfoPositionsComplete(tail);
      var tp := InfoPositions(tail);
      var sp := Shifted(tp);
      var pos := InfoPositions(resp);
      var head: seq<nat> := if resp[0].DataMinerInfo? then [0] else [];
      assert pos == head + sp;
      forall i | 0 < i < |resp| && resp[i].DataMinerInfo?
        ensures i in pos
      {
        assert tail[i - 1] == resp[i];
        var k :| 0 <= k < |tp| && tp[k] == i - 1;
        assert pos[|head| + k] == sp[k] == i;
      }
    }
  }

  /** Every kept flag equals `v` exactly when every DataMiner-info message reports `v`. */
  lemma InfoFlagsUniform(resp: seq<Message>, v: bool)
    ensures (forall k :: 0 <= k < |InfoFlags(resp)| ==> InfoFlags(resp)[k] == v) <==>
            (forall i :: 0 <= i < |resp| && resp[i].DataMinerInfo? ==> resp[i].isSwarmingEnabled == v)
  {
    InfoFlagsInOrder(resp);
    var flags, pos := InfoFlags(resp), InfoPositions(resp);
    if forall i :: 0 <= i < |resp| && resp[i].DataMinerInfo? ==> resp[i].isSwarmingEnabled == v {
      forall k | 0 <= k < |flags| ensures flags[k] == v {
        assert resp[pos[k]] == DataMinerInfo(flags[k]);
      }
    }
    if forall k :: 0 <= k < |flags| ==> flags[k] == v {
      forall i | 0 <= i < |resp| && resp[i].DataMinerInfo? ensures resp[i].isSwarmingEnabled == v {
        var k :| 0 <= k < |pos| && pos[k] == i;
        assert resp[i] == DataMinerInfo(flags[k]);
      }
    }
  }
}
