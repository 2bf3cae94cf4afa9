/** The buffered reader under the SIP and SDP parsers (proto/proto_read.go). */
module Readers {
  import opened Octets
  import opened Text

  class Reader {
    /** Octets not yet consumed. */
    var rest: string

    constructor (data: string)
      ensures rest == data
    {
      rest := data;
    }

    /** readLine: end of input is an error only when nothing was read. */
    method ReadLine() returns (r: Option<string>)
      modifies this
      ensures old(rest) == "" ==> r == None && rest == ""
      ensures old(rest) != "" ==> (r, rest) == (Some(Line(old(rest)).0), Line(old(rest)).1)
    {
      if rest == "" { return None; }
      var n := RawLine(rest);
      var line := rest[..n];
      rest := rest[n..];
      r := Some(TrimCrLf(line));
    }

    /** readContinuedLine: folded lines are joined to the first; an empty line is returned at once. */
    method ReadContinuedLine() returns (r: Option<string>)
      modifies this
      ensures old(rest) == "" ==> r == None && rest == ""
      ensures old(rest) != "" ==> (r, rest) == (Some(ContinuedLine(old(rest)).0), ContinuedLine(old(rest)).1)
    {
      hide Line, TrimRight;
      var first := ReadLine();
      if first.None? || first.value == "" { return first; }
      var line := first.value;
      while Continues(rest)
        invariant old(rest) != "" && Folded(line, rest) == ContinuedLine(old(rest))
        decreases |rest|
      {
        line := TrimRight(line, " \t\r");
        var cont := ReadLine();
        line := line + cont.value;
      }
      r := Some(line);
    }

    /** io.ReadFull into a buffer of n octets. */
    method ReadFull(n: nat) returns (r: Option<string>)
      modifies this
      ensures n <= |old(rest)| ==> r == Some(old(rest)[..n]) && rest == old(rest)[n..]
      ensures n > |old(rest)| ==> r == None && rest == ""
    {
      if n > |rest| {
        rest := "";
        return None;
      }
      r := Some(rest[..n]);
      rest := rest[n..];
    }

    /** io.CopyN(io.Discard, r, n). */
    method Discard(n: nat)
      modifies this
      ensures rest == if |old(rest)| <= n then "" else old(rest)[n..]
    {
      rest := if |rest| <= n then "" else rest[n..];
    }
  }
}
