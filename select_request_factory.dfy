/** Builds the select requests of a domain query (Factories/SelectRequestFactory.cs). */
module SelectRequestFactory {
  import opened Results
  import opened SimpleDbModel

  const SelectPrefix: string := "Select * from "
  const ItemNameFilter: string := " where itemName() = '"

  /** The select expression as the source writes it: the whole domain, or the items whose
      name equals `identifier`, with the identifier pasted between quotes verbatim. */
  function CreateSelectExpression(domainName: string, identifier: Option<string> := None): string
  {
    match identifier
    case None => SelectPrefix + domainName
    case Some(id) => SelectPrefix + domainName + ItemNameFilter + id + "'"
  }

  /** A value written inside quotes, every quote doubled as the select syntax requires. */
  function Escape(value: string): string
  {
    if value == [] then []
    else (if value[0] == '\'' then "''" else [value[0]]) + Escape(value[1..])
  }

  /** The select expression with the identifier escaped, as the select syntax requires. */
  function CreateEscapedSelectExpression(domainName: string, identifier: Option<string> := None): string
  {
    match identifier
    case None => SelectPrefix + domainName
    case Some(id) => SelectPrefix + domainName + ItemNameFilter + Escape(id) + "'"
  }

  /** A select request for one page: the expression as written for the domain and
      identifier, the continuation token as given, and a consistent read unless asked
      otherwise. The expression asks for exactly that domain and identifier when the
      domain name is plain and the identifier holds no quote. */
  function CreateRequest(domainName: string, nextToken: Option<string>, identifier: Option<string> := None,
                         consistentRead: bool := true): (r: SelectRequest)
    ensures r.selectExpression == CreateSelectExpression(domainName, identifier)
    ensures IsPlainName(domainName) && (identifier.Some? ==> '\'' !in identifier.value) ==>
      ParseSelectExpression(r.selectExpression) == Some(SelectQuery(domainName, identifier))
    ensures r.nextToken == nextToken
    ensures r.consistentRead == consistentRead
  {
    var expression := CreateSelectExpression(domainName, identifier);
    assert IsPlainName(domainName) && (identifier.Some? ==> '\'' !in identifier.value) ==>
      ParseSelectExpression(expression) == Some(SelectQuery(domainName, identifier)) by {
      if IsPlainName(domainName) && (identifier.Some? ==> '\'' !in identifier.value) {
        VerbatimAgreesWithoutQuotes(domainName, identifier);
        EscapedExpressionRoundTrip(domainName, identifier);
      }
    }
    SelectRequest(expression, nextToken, consistentRead)
  }

  // What a select expression asks for: a reading of the two shapes built above.

  /** A query for every item of a domain, or for the item of one name. */
  datatype SelectQuery = SelectQuery(domainName: string, itemName: Option<string>)

  predicate IsNameChar(c: char)
  {
    'a' <= c <= 'z' || 'A' <= c <= 'Z' || '0' <= c <= '9' || c == '_' || c == '$'
  }

  /** A domain name the select syntax accepts without quoting. */
  predicate IsPlainName(s: string)
  {
    && |s| > 0
    && !('0' <= s[0] <= '9')
    && forall i | 0 <= i < |s| :: IsNameChar(s[i])
  }

  /** The length of the longest prefix of `s` made of name characters. */
  function NameLength(s: string): (n: nat)
    ensures n <= |s|
  {
    if s == [] || !IsNameChar(s[0]) then 0 else 1 + NameLength(s[1..])
  }

  /** The value of a quoted literal whose opening quote has been read: doubled quotes
      stand for one quote, and the closing quote must end the text. */
  function ParseQuoted(s: string): Option<string>
  {
    if s == [] then None
    else if s[0] != '\'' then
      match ParseQuoted(s[1..])
      case Some(v) => Some([s[0]] + v)
      case None => None
    else if |s| == 1 then Some("")
    else if s[1] == '\'' then
      match ParseQuoted(s[2..])
      case Some(v) => Some("'" + v)
      case None => None
    else None
  }

  /** What a select expression of one of the two shapes asks for; `None` for anything else. */
  function ParseSelectExpression(s: string): Option<SelectQuery>
  {
    if |s| < |SelectPrefix| || s[..|SelectPrefix|] != SelectPrefix then None
    else
      var rest := s[|SelectPrefix|..];
      var k := NameLength(rest);
      var domain, tail := rest[..k], rest[k..];
      if !IsPlainName(domain) then None
      else if tail == [] then Some(SelectQuery(domain, None))
      else if |tail| < |ItemNameFilter| || tail[..|ItemNameFilter|] != ItemNameFilter then None
      else
        match ParseQuoted(tail[|ItemNameFilter|..])
        case Some(v) => Some(SelectQuery(domain, Some(v)))
        case None => None
  }

  /** A plain name followed by a non-name character (or nothing) is read whole. */
  lemma {:induction false} NameLengthOfPlain(name: string, tail: string)
    requires forall i | 0 <= i < |name| :: IsNameChar(name[i])
    requires tail == [] || !IsNameChar(tail[0])
    ensures NameLength(name + tail) == |name|
  {
    if name != [] {
      assert (name + tail)[1..] == name[1..] + tail;
      NameLengthOfPlain(name[1..], tail);
    }
  }

  /** An escaped value followed by the closing quote reads back as the value. */
  lemma {:induction false} EscapeRoundTrip(value: string)
    ensures ParseQuoted(Escape(value) + "'") == Some(value)
  {
    if value != [] {
      EscapeRoundTrip(value[1..]);
      var rest := Escape(value[1..]) + "'";
      if value[0] == '\'' {
        assert Escape(value) + "'" == "''" + rest;
        assert ("''" + rest)[2..] == rest;
      } else {
        assert Escape(value) + "'" == [value[0]] + rest;
        assert ([value[0]] + rest)[1..] == rest;
      }
      assert value == [value[0]] + value[1..];
    }
  }

  /** The expression the requests use asks for exactly the given domain and identifier. */
  lemma EscapedExpressionRoundTrip(domainName: string, identifier: Option<string>)
    requires IsPlainName(domainName)
    ensures ParseSelectExpression(CreateEscapedSelectExpression(domainName, identifier))
      == Some(SelectQuery(domainName, identifier))
  {
    var s := CreateEscapedSelectExpression(domainName, identifier);
    var tail := match identifier
      case None => ""
      case Some(id) => ItemNameFilter + Escape(id) + "'";
    assert s == SelectPrefix + (domainName + tail);
    assert s[..|SelectPrefix|] == SelectPrefix;
    assert s[|SelectPrefix|..] == domainName + tail;
    NameLengthOfPlain(domainName, tail);
    assert (domainName + tail)[..|domainName|] == domainName;
    assert (domainName + tail)[|domainName|..] == tail;
    if identifier.Some? {
      assert tail[..|ItemNameFilter|] == ItemNameFilter;
      assert tail[|ItemNameFilter|..] == Escape(identifier.value) + "'";
      EscapeRoundTrip(identifier.value);
    }
  }

  /** Without a quote in the identifier, escaping changes nothing. */
  lemma {:induction false} EscapeWithoutQuotes(value: string)
    requires '\'' !in value
    ensures Escape(value) == value
  {
    if value != [] {
      EscapeWithoutQuotes(value[1..]);
      assert value == [value[0]] + value[1..];
    }
  }

  /** For identifiers without a quote (GUIDs, say) the expression as written is the escaped one. */
  lemma VerbatimAgreesWithoutQuotes(domainName: string, identifier: Option<string>)
    requires identifier.Some? ==> '\'' !in identifier.value
    ensures CreateSelectExpression(domainName, identifier) == CreateEscapedSelectExpression(domainName, identifier)
  {
    if identifier.Some? {
      EscapeWithoutQuotes(identifier.value);
    }
  }

  /** As written, an identifier with a quote yields an expression that is no itemName filter at all. */
  lemma QuoteInIdentifierBreaksFilter()
    ensures ParseSelectExpression(CreateSelectExpression("TestDomain", Some("a'b"))) == None
  {
    var domain, tail := "TestDomain", ItemNameFilter + "a'b" + "'";
    var s := CreateSelectExpression(domain, Some("a'b"));
    assert s == SelectPrefix + (domain + tail);
    assert s[..|SelectPrefix|] == SelectPrefix;
    assert s[|SelectPrefix|..] == domain + tail;
    NameLengthOfPlain(domain, tail);
    assert (domain + tail)[..|domain|] == domain;
    assert (domain + tail)[|domain|..] == tail;
    assert tail[..|ItemNameFilter|] == ItemNameFilter;
    assert tail[|ItemNameFilter|..] == "a'b'";
    assert ParseQuoted("'b'") == None;
  }
}
