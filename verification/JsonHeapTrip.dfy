// Printing a tree of nodes and parsing the text builds the tree again.
module JsonHeapTrip {
  import opened Bytes
  import opened JsonText
  import opened JsonGrammar
  import opened JsonCompare
  import opened ChildList
  import opened JsonNodes
  import JsonRoundTrip
  import JsonParser
  import JsonPrinter
  import JsonNodeCompare

  // cJSON_Parse of what cJSON_Print returns, compared with the tree printed: a
  // copy of the tree on new nodes, unless it nests too deep or its text is too
  // long; equal to it exactly when the members of one name agree.
  method PrintParseCompare(item: Node, format: bool, caseSensitive: bool) returns (copy: Node?, same: bool)
    requires Tree(item) && Integral(Value(item))
    ensures copy != null <==>
              && Nesting(old(Value(item))) <= 1000
              && |ValueText(Cut(old(Value(item))), format, 0)| + 2 <= INT_MAX
    ensures copy != null ==> fresh(copy) && fresh(copy.repr) && Tree(copy) && Value(copy) == Cut(old(Value(item)))
    ensures Tree(item) && Value(item) == old(Value(item))
    ensures same <==> copy != null && Agrees(old(Value(item)), caseSensitive)
  {
    hide Tree, Value, Compare, Agrees, Integral, ValueText, ParseText, Cut, Nesting;
    ghost var v := Value(item);
    copy, same := null, false;
    var printed := JsonPrinter.Print(item, format);
    if printed.None? { return; }
    var end;
    copy, end := JsonParser.ParseWithLengthOpts(printed.value, true);
    TextComesBack(v, format);
    same := JsonNodeCompare.CompareNodes(item, copy, caseSensitive);
    CutComparesEqual(v, caseSensitive);
  }

  lemma TextComesBack(v: Json, format: bool)
    requires Integral(v)
    ensures var t := ValueText(Cut(v), format, 0);
            ParseText(t + [NUL], true) == if Nesting(v) <= 1000 then Done(Cut(v), |t|) else Fail
  {
    CutShape(v);
    JsonRoundTrip.TerminatedTextParses(Cut(v), format);
  }
}
