/** The text-generation service, seen only through its answers: the n-th
    call returns `stream(n)`, whatever it was asked. */
module OracleStream {

  class Oracle {
    const stream: nat -> string
    var calls: nat

    constructor (stream: nat -> string)
      ensures this.stream == stream && calls == 0
    {
      this.stream := stream;
      calls := 0;
    }

    /** One blocking round trip: the next answer of the stream. */
    method Ask() returns (r: string)
      modifies this
      ensures calls == old(calls) + 1
      ensures r == stream(old(calls))
    {
      r := stream(calls);
      calls := calls + 1;
    }
  }
}
