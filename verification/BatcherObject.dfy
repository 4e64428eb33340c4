/** The batcher as an object. Each method is one step that no other step divides: the sender's
    reads and writes of the index are not protected against the timer, and are steps of their own. */
module BatcherObject {
  import opened Types
  import opened FsmModel
  import Model = BatcherModel

  class Batcher {
    const batchLength: nat
    var nextFreeIndex: nat
    var dataSlice: seq<Entry>
    var outputChans: array<Model.Channel>
    /** Where SendLog is, for the caller that holds its lock. */
    var sender: Model.Sender
    /** Where the loop of the timer is, which holds the lock of the slots once it has looked. */
    var timer: Model.Timer
    /** The batches flushed, with what their channels have received. */
    ghost var log: seq<Model.Flush>

    constructor (batchLength: nat)
      requires batchLength > 0
      ensures Valid() && this.batchLength == batchLength && Value() == Model.Start(batchLength)
    {
      this.batchLength, nextFreeIndex, sender, timer, log := batchLength, 0, Model.Idle, Model.Waits, [];
      dataSlice := Model.Blank(batchLength);
      outputChans := new Model.Channel[batchLength](_ => []);
    }

    ghost function Value(): Model.Batcher
      reads this
    {
      Model.Batcher(nextFreeIndex, dataSlice, sender, timer, log)
    }

    /** The channels that the next flush will use are all empty. */
    ghost predicate Valid()
      reads this, outputChans
    {
      && Model.Shaped(batchLength, Value())
      && outputChans.Length == batchLength
      && forall i :: 0 <= i < outputChans.Length ==> outputChans[i] == []
    }

    /** Sends the results of a batch to its channels; no send finds its channel full. */
    method SendLogs(datas: seq<Entry>, outputs: array<Model.Channel>, answer: Model.Answer)
      requires |datas| <= outputs.Length && (answer.Results? ==> |answer.rs| <= |datas|)
      requires forall i :: 0 <= i < outputs.Length ==> outputs[i] == []
      modifies outputs
      ensures outputs[..] == Model.Received(outputs.Length, datas, answer)
    {
      if answer.Failed? {
        for i := 0 to |datas|
          invariant forall j :: 0 <= j < outputs.Length ==> outputs[j] == if j < i then [None] else []
        {
          assert |outputs[i]| < 1;
          outputs[i] := outputs[i] + [None];
        }
        return;
      }
      for i := 0 to |answer.rs|
        invariant forall j :: 0 <= j < outputs.Length ==> outputs[j] == if j < i then [Some(answer.rs[j])] else []
      {
        assert |outputs[i]| < 1;
        outputs[i] := outputs[i] + [Some(answer.rs[i])];
      }
    }

    /** Takes the batch out and puts fresh slots and channels in its place. */
    method Flush(datas: seq<Entry>, answer: Model.Answer)
      requires Valid() && |datas| <= batchLength && (answer.Results? ==> |answer.rs| <= |datas|)
      modifies this, outputChans
      ensures Valid() && fresh(outputChans)
      ensures Value() == Model.Flushed(batchLength, old(Value()), datas, old(sender), answer)
    {
      nextFreeIndex := 0;
      timer := Model.Waits;
      dataSlice := Model.Blank(batchLength);
      var outputs := outputChans;
      outputChans := new Model.Channel[batchLength](_ => []);
      SendLogs(datas, outputs, answer);
      log := log + [Model.Flush(datas, outputs[..])];
    }

    /** SendLog takes its lock and picks the slot. */
    method Pick(e: Entry)
      requires Valid() && sender.Idle? && !e.Empty?
      modifies `sender
      ensures Valid() && Value() == Model.Step(batchLength, old(Value()), Model.Event.Pick(e))
    {
      sender := Model.Picked(e, nextFreeIndex);
    }

    /** SendLog reads the index once more, to advance it. */
    method Reread()
      requires Valid() && sender.Picked?
      modifies `sender
      ensures Valid() && Value() == Model.Step(batchLength, old(Value()), Model.Event.Reread)
    {
      sender := Model.Sender.Reread(sender.e, sender.at, nextFreeIndex);
    }

    /** SendLog writes the index and sends its data to the storing loop. */
    method Send()
      requires Valid() && sender.Reread?
      modifies `sender, `nextFreeIndex
      ensures Valid() && Value() == Model.Step(batchLength, old(Value()), Model.Event.Send)
    {
      nextFreeIndex := (sender.seen + 1) % batchLength;
      sender := Model.Sent(sender.e, sender.at);
    }

    /** The storing loop stores what was sent, and flushes when that was the last slot. */
    method Store(answer: Model.Answer)
      requires Valid() && Model.Enabled(batchLength, Value(), Model.Event.Store(answer))
      modifies this, outputChans
      ensures Valid() && Value() == Model.Step(batchLength, old(Value()), Model.Event.Store(answer))
    {
      hide Model.Received;
      var id, data := sender.at, sender.e;
      dataSlice := dataSlice[id := data];
      sender := Model.Stored(id);
      if id != batchLength - 1 {
        return;
      }
      Model.CommandsCount(dataSlice);
      Flush(dataSlice, answer);
    }

    /** SendLog returns and gives up its lock. */
    method Return()
      requires Valid() && sender.Stored?
      modifies `sender
      ensures Valid() && Value() == Model.Step(batchLength, old(Value()), Model.Event.Return)
    {
      sender := Model.Idle;
    }

    /** The timer fires: with anything in the first slot the loop keeps its lock and reads the index. */
    method Look()
      requires Valid() && timer.Waits?
      modifies `timer
      ensures Valid() && Value() == Model.Step(batchLength, old(Value()), Model.Event.Look)
    {
      if dataSlice[0].Empty? {
        return;
      }
      timer := Model.Looked(nextFreeIndex);
    }

    /** It resets the index and flushes what the slots hold before the index that it read. */
    method Tick(answer: Model.Answer)
      requires Valid() && Model.Enabled(batchLength, Value(), Model.Event.Tick(answer))
      modifies this, outputChans
      ensures Valid() && Value() == Model.Step(batchLength, old(Value()), Model.Event.Tick(answer))
    {
      hide Model.Received;
      var datas := dataSlice[..timer.seen];
      Model.CommandsCount(datas);
      Flush(datas, answer);
    }
  }
}
