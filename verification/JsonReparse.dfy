/** Printing a tree and parsing the text: the whole round trip on the heap. */
module JsonReparse {
  import opened Bytes
  import opened JsonValue
  import opened JsonNode
  import opened JsonTree
  import opened JsonText
  import JsonParser
  import JsonPrinter
  import JsonRoundTrip

  /** cJSON_Parse of what cJSON_Print or cJSON_PrintUnformatted returns: a new tree of the same value, or
      null for a value that is nested too deeply. */
  method PrintAndParse(c: Libc, item: Node, format: bool, ghost t: Tree, ghost v: Value)
    returns (copy: Node?, ghost u: Tree)
    requires t.root == item && Reps(t, v) && Printable(c, v)
    ensures Reps(t, v)
    ensures if Depth(v) <= NESTING_LIMIT
            then copy == u.root && Reps(u, v) && Separate(u) && Detached(u.root) && fresh(Nodes(u))
            else copy == null
  {
    hide Reps, Text, Nodes, AllNodes, Separate, Printable;
    assert allocated(Nodes(t)) && allocated(AllNodes(t.kids));
    JsonPrinter.PrintableIsRenderable(c, v);
    JsonRoundTrip.ParseUndoesPrint(c, v, format);
    var printed := JsonPrinter.Print(c, item, format, t, v);
    copy, u := JsonParser.Parse(c, printed[..printed.Length - 1]);
  }

  /** For strings without NUL and integers up to 2^53 this needs of the C library only that strtod reads
      decimal integers. */
  method ReparseIntegral(c: Libc, item: Node, format: bool, ghost t: Tree, ghost v: Value)
    returns (copy: Node?, ghost u: Tree)
    requires t.root == item && Reps(t, v) && ReadsIntegers(c) && Integral(v) && Depth(v) <= NESTING_LIMIT
    ensures Reps(t, v) && copy == u.root && Reps(u, v) && Separate(u) && fresh(Nodes(u))
  {
    hide Reps, Nodes, AllNodes, Separate, Printable;
    IntegralPrintable(c, v);
    copy, u := PrintAndParse(c, item, format, t, v);
  }
}
