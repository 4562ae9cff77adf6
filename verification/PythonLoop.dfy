/** The line loop of algorithm_server/python/algorithm_worker/worker.py: one reply line per request line. */
module PythonLoop {
  import opened Wrappers

  // A payload, a result and an error body stand for their JSON texts; an id for its decimal text.
  type Payload = string
  datatype Outcome = Result(value: string) | Error(body: string)

  datatype Line =
    | Blank
    | Garbled                            // not a JSON object: json.loads or message.get raises
    | Request(id: nat, payload: Payload)

  // A garbled line is answered with an empty id.
  datatype Reply = Reply(id: Option<nat>, outcome: Outcome)

  // What the pipeline answers is a parameter: AlgorithmWorker.calculate keeps nothing between requests,
  // and an exception it raises becomes an Error.
  function Answer(line: Line, calculate: Payload -> Outcome): Reply
    requires !line.Blank?
  {
    match line
    case Garbled => Reply(None, Error("ALGORITHM_WORKER_ERROR"))
    case Request(id, payload) => Reply(Some(id), calculate(payload))
  }

  function Replies(lines: seq<Line>, calculate: Payload -> Outcome): seq<Reply> {
    if lines == [] then []
    else Replies(lines[..|lines| - 1], calculate) +
         if lines[|lines| - 1].Blank? then [] else [Answer(lines[|lines| - 1], calculate)]
  }

  method MainLoop(lines: seq<Line>, calculate: Payload -> Outcome) returns (stdout: seq<Reply>)
    ensures stdout == Replies(lines, calculate)
  {
    stdout := [];
    for i := 0 to |lines|
      invariant stdout == Replies(lines[..i], calculate)
    {
      assert lines[..i + 1][..i] == lines[..i];
      if lines[i].Blank? {
        continue;
      }
      var response := Reply(None, Error("ALGORITHM_WORKER_ERROR"));
      if lines[i].Request? {
        response := Reply(Some(lines[i].id), calculate(lines[i].payload));
      }
      stdout := stdout + [response];
    }
    assert lines[..|lines|] == lines;
  }

  function NonBlank(lines: seq<Line>): nat {
    if lines == [] then 0
    else NonBlank(lines[..|lines| - 1]) + if lines[|lines| - 1].Blank? then 0 else 1
  }

  // Main result: one reply for each line that is not blank, at the place that line has among those lines.
  lemma {:induction false} ReplyPerLine(lines: seq<Line>, calculate: Payload -> Outcome)
    ensures |Replies(lines, calculate)| == NonBlank(lines)
    ensures forall i :: 0 <= i < |lines| && !lines[i].Blank? ==> AnsweredAt(lines, calculate, i)
  {
    if lines != [] {
      var last := |lines| - 1;
      ReplyPerLine(lines[..last], calculate);
      forall i | 0 <= i < |lines| && !lines[i].Blank? ensures AnsweredAt(lines, calculate, i) {
        if i < last {
          assert lines[..last][..i] == lines[..i];
          assert AnsweredAt(lines[..last], calculate, i);
        }
      }
    }
  }

  predicate AnsweredAt(lines: seq<Line>, calculate: Payload -> Outcome, i: nat)
    requires i < |lines| && !lines[i].Blank?
  {
    var place := NonBlank(lines[..i]);
    && place < |Replies(lines, calculate)|
    && match lines[i]
       case Request(id, payload) => Replies(lines, calculate)[place] == Reply(Some(id), calculate(payload))
       case Garbled => Replies(lines, calculate)[place] == Reply(None, Error("ALGORITHM_WORKER_ERROR"))
  }

  // Without blank lines reply k answers line k.
  lemma {:induction false} RequestsAnswered(lines: seq<Line>, calculate: Payload -> Outcome)
    requires forall k :: 0 <= k < |lines| ==> !lines[k].Blank?
    ensures |Replies(lines, calculate)| == |lines|
    ensures forall k :: 0 <= k < |lines| ==> Replies(lines, calculate)[k] == Answer(lines[k], calculate)
  {
    if lines != [] {
      RequestsAnswered(lines[..|lines| - 1], calculate);
    }
  }

  // The replies to what has been written so far are never taken back: the output stream only grows.
  lemma {:induction false} RepliesOnlyGrow(lines: seq<Line>, more: seq<Line>, calculate: Payload -> Outcome)
    ensures Replies(lines, calculate) <= Replies(lines + more, calculate)
  {
    if more == [] {
      assert lines + more == lines;
    } else {
      RepliesOnlyGrow(lines, more[..|more| - 1], calculate);
      assert (lines + more)[..|lines + more| - 1] == lines + more[..|more| - 1];
    }
  }
}
