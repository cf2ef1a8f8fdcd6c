/** The std::ostream the writers print to (std::cout or an output file),
    seen as the list of lines written to it so far. */
module Stream {

  class OutStream {
    var lines: seq<string>

    constructor ()
      ensures lines == []
    {
      lines := [];
    }

    /** out << line << std::endl */
    method WriteLine(line: string)
      modifies this
      ensures lines == old(lines) + [line]
    {
      lines := lines + [line];
    }
  }
}
