/**
 Non-blocking streams as scripts: the list of answers a stream will give to
 successive calls.  NORMAL moves at most the bytes asked for, every other answer
 moves none, and a stream whose script has run out answers AGAIN.
 */
module Streams {
  type byte = bv8

  datatype Status = Normal | Again | Eof | Error
  datatype ReadAnswer = Data(bytes: seq<byte>) | NoData(status: Status)
  datatype WriteAnswer = Took(count: nat) | Refused(status: Status)

  function Min(a: nat, b: nat): nat { if a < b then a else b }

  function ReadStatus(script: seq<ReadAnswer>): Status {
    if script == [] then Again
    else match script[0]
         case Data(_) => Normal
         case NoData(s) => if s == Normal then Again else s
  }

  /** The bytes a read of at most `room` bytes gets. */
  function ReadBytes(script: seq<ReadAnswer>, room: nat): (r: seq<byte>)
    ensures |r| <= room
    ensures ReadStatus(script) != Normal ==> r == []
  {
    if script != [] && script[0].Data? then script[0].bytes[..Min(room, |script[0].bytes|)] else []
  }

  function WriteStatus(script: seq<WriteAnswer>): Status {
    if script == [] then Again
    else match script[0]
         case Took(_) => Normal
         case Refused(s) => if s == Normal then Again else s
  }

  /** How many of `offered` bytes a write takes. */
  function WriteCount(script: seq<WriteAnswer>, offered: nat): (n: nat)
    ensures n <= offered
    ensures WriteStatus(script) != Normal ==> n == 0
  {
    if script != [] && script[0].Took? then Min(offered, script[0].count) else 0
  }

  function Rest<T>(script: seq<T>): seq<T> {
    if script == [] then [] else script[1..]
  }
}
