/** The duplicate-key scan over a JSON token stream (internal/cli/attest.go). */
module DuplicateKeys {

  import opened Wrappers

  datatype Token = OpenObject | CloseObject | OpenArray | CloseArray | Text(value: string) | Plain

  /** A JSON document as written: an object lists its members in order and may repeat a key. */
  datatype Document = Leaf(token: Token) | List(items: seq<Document>) | Members(fields: seq<Field>)
  datatype Field = Field(key: string, value: Document)

  ghost predicate Proper(v: Document)
  {
    match v
    case Leaf(t) => t.Text? || t.Plain?
    case List(items) => forall i :: 0 <= i < |items| ==> Proper(items[i])
    case Members(fields) => forall i :: 0 <= i < |fields| ==> Proper(fields[i].value)
  }

  /** Some object, at some depth, gives one key twice. */
  ghost predicate Repeats(v: Document)
  {
    match v
    case Leaf(_) => false
    case List(items) => exists i :: 0 <= i < |items| && Repeats(items[i])
    case Members(fields) =>
      || (exists i, j :: 0 <= i < j < |fields| && fields[i].key == fields[j].key)
      || (exists i :: 0 <= i < |fields| && Repeats(fields[i].value))
  }

  // ---------- the tokens of a document ----------

  function Tokens(v: Document): (t: seq<Token>)
    ensures |t| >= 1
    decreases v, 1, 0
  {
    match v
    case Leaf(t) => [t]
    case List(items) => [OpenArray] + ItemTokens(v, items) + [CloseArray]
    case Members(fields) => [OpenObject] + FieldTokens(v, fields) + [CloseObject]
  }

  function ItemTokens(ghost v: Document, items: seq<Document>): seq<Token>
    requires v.List? && forall i :: 0 <= i < |items| ==> items[i] in v.items
    decreases v, 0, |items|
  {
    if items == [] then [] else Tokens(items[0]) + ItemTokens(v, items[1..])
  }

  function FieldTokens(ghost v: Document, fields: seq<Field>): seq<Token>
    requires v.Members? && forall i :: 0 <= i < |fields| ==> fields[i] in v.fields
    decreases v, 0, |fields|
  {
    if fields == [] then []
    else [Text(fields[0].key)] + Tokens(fields[0].value) + FieldTokens(v, fields[1..])
  }

  // ---------- the scan as a function of the stream ----------

  /** The stream fails, or ends, after its last token. `Clean(next)` leaves the stream there. */
  datatype Outcome = Failed | Duplicate | Clean(next: nat)

  predicate Closes(t: Token) { t.CloseObject? || t.CloseArray? }

  function Close(s: seq<Token>, pos: nat): (o: Outcome)
    requires pos <= |s|
    ensures o.Clean? ==> pos < o.next <= |s|
  {
    if pos == |s| then Failed else Clean(pos + 1)
  }

  function Scan(s: seq<Token>, pos: nat): (o: Outcome)
    requires pos <= |s|
    ensures o.Clean? ==> pos < o.next <= |s|
    decreases |s| - pos, 1
  {
    if pos == |s| then Failed
    else match s[pos]
      case OpenObject => ScanFields(s, pos + 1, {})
      case OpenArray => ScanItems(s, pos + 1)
      case _ => Clean(pos + 1)
  }

  function ScanFields(s: seq<Token>, pos: nat, seen: set<string>): (o: Outcome)
    requires pos <= |s|
    ensures o.Clean? ==> pos < o.next <= |s|
    decreases |s| - pos, 2
  {
    if pos == |s| || Closes(s[pos]) then Close(s, pos)
    else if !s[pos].Text? then Failed
    else if s[pos].value in seen then Duplicate
    else
      var o := Scan(s, pos + 1);
      if o.Clean? then ScanFields(s, o.next, seen + {s[pos].value}) else o
  }

  function ScanItems(s: seq<Token>, pos: nat): (o: Outcome)
    requires pos <= |s|
    ensures o.Clean? ==> pos < o.next <= |s|
    decreases |s| - pos, 2
  {
    if pos == |s| || Closes(s[pos]) then Close(s, pos)
    else
      var o := Scan(s, pos);
      if o.Clean? then ScanItems(s, o.next) else o
  }

  // ---------- the decoder ----------

  /** A token stream that stops, with an error or at the end of input, after its last token. Whether
      anything still looks like a value there is up to the input. */
  class Decoder {

    const tokens: seq<Token>
    const dangling: bool
    var pos: nat

    ghost predicate Valid() reads this { pos <= |tokens| }

    constructor (tokens: seq<Token>, dangling: bool)
      ensures Valid() && pos == 0 && this.tokens == tokens
    {
      this.tokens, this.dangling, pos := tokens, dangling, 0;
    }

    predicate More()
      requires Valid()
      reads this
    {
      if pos == |tokens| then dangling else !Closes(tokens[pos])
    }

    method Next() returns (t: Option<Token>)
      requires Valid()
      modifies this
      ensures Valid()
      ensures old(pos) == |tokens| ==> t == None && pos == old(pos)
      ensures old(pos) < |tokens| ==> t == Some(tokens[old(pos)]) && pos == old(pos) + 1
    {
      if pos == |tokens| {
        return None;
      }
      t := Some(tokens[pos]);
      pos := pos + 1;
    }

    /** The scan itself: `Ok(true)` on a duplicate, an error when the stream fails first. */
    method HasDuplicateKeys() returns (r: Result<bool, string>)
      requires Valid()
      modifies this
      ensures Valid() && pos >= old(pos)
      ensures Says(r, Scan(tokens, old(pos)), pos)
      decreases |tokens| - pos, 1
    {
      var start := pos;
      var token := Next();
      if token.None? {
        return Err("end of stream");
      }
      match token.value
      case OpenObject =>
        var seen: set<string> := {};
        while More()
          invariant Valid() && pos > start
          invariant Scan(tokens, start) == ScanFields(tokens, pos, seen)
          decreases |tokens| - pos
        {
          var key := Next();
          if key.None? {
            return Err("end of stream");
          }
          if !key.value.Text? {
            return Err("invalid object key");
          }
          if key.value.value in seen {
            return Ok(true);
          }
          seen := seen + {key.value.value};
          var inner := HasDuplicateKeys();
          if inner.Err? || inner.value {
            return inner;
          }
        }
        r := Finish();
      case OpenArray =>
        while More()
          invariant Valid() && pos > start
          invariant Scan(tokens, start) == ScanItems(tokens, pos)
          decreases |tokens| - pos
        {
          var inner := HasDuplicateKeys();
          if inner.Err? || inner.value {
            return inner;
          }
        }
        r := Finish();
      case _ =>
        r := Ok(false);
    }

    method Finish() returns (r: Result<bool, string>)
      requires Valid()
      modifies this
      ensures Valid() && pos >= old(pos)
      ensures Says(r, Close(tokens, old(pos)), pos)
    {
      var token := Next();
      r := if token.None? then Err("end of stream") else Ok(false);
    }
  }

  ghost predicate Says(r: Result<bool, string>, o: Outcome, pos: nat)
  {
    match o
    case Failed => r.Err?
    case Duplicate => r == Ok(true)
    case Clean(next) => r == Ok(false) && pos == next
  }

  // ---------- what the scan reports ----------

  /** As far as the stream goes, it shows `t` from `pos` on: one of the two is a prefix of the other. */
  ghost predicate Shows(s: seq<Token>, pos: nat, t: seq<Token>)
  {
    pos <= |s| ==> s[pos..] <= t || t <= s[pos..]
  }

  lemma ShowsParts(s: seq<Token>, pos: nat, a: seq<Token>, b: seq<Token>)
    requires Shows(s, pos, a + b)
    ensures Shows(s, pos, a) && Shows(s, pos + |a|, b)
    ensures pos < |s| && a != [] ==> s[pos] == a[0]
  {
    if pos <= |s| {
      var x := s[pos..];
      if |a| <= |x| {
        assert x[..|a|] == (a + b)[..|a|] == a;
        assert s[pos + |a|..] == x[|a|..];
        assert (a + b)[|a|..] == b;
      } else {
        assert x == (a + b)[..|x|] == a[..|x|];
      }
    }
  }

  /** Reading to `end`: a complete stream gives the exact verdict; one cut short before `end` gives an
      error, or a duplicate that is really there. */
  ghost predicate Reports(s: seq<Token>, o: Outcome, end: nat, repeats: bool)
  {
    if end <= |s| then o == (if repeats then Duplicate else Clean(end))
    else o == Failed || (o == Duplicate && repeats)
  }

  ghost predicate FieldsRepeat(fields: seq<Field>, seen: set<string>)
  {
    || (exists i :: 0 <= i < |fields| && fields[i].key in seen)
    || (exists i, j :: 0 <= i < j < |fields| && fields[i].key == fields[j].key)
    || (exists i :: 0 <= i < |fields| && Repeats(fields[i].value))
  }

  lemma FieldsRepeatStep(fields: seq<Field>, seen: set<string>)
    requires fields != []
    ensures FieldsRepeat(fields, seen) <==>
      fields[0].key in seen || Repeats(fields[0].value) || FieldsRepeat(fields[1..], seen + {fields[0].key})
  {
    var rest, more := fields[1..], seen + {fields[0].key};
    assert forall i :: 0 <= i < |rest| ==> rest[i] == fields[i + 1];
    if FieldsRepeat(fields, seen) && fields[0].key !in seen && !Repeats(fields[0].value) {
      if i :| 0 <= i < |fields| && fields[i].key in seen {
        assert rest[i - 1].key in more;
      } else if i, j :| 0 <= i < j < |fields| && fields[i].key == fields[j].key {
        if i == 0 { assert rest[j - 1].key in more; } else { assert rest[i - 1].key == rest[j - 1].key; }
      } else {
        var i :| 0 <= i < |fields| && Repeats(fields[i].value);
        assert Repeats(rest[i - 1].value);
      }
    }
    if FieldsRepeat(rest, more) {
      RestRepeats(fields, seen);
    }
  }

  lemma RestRepeats(fields: seq<Field>, seen: set<string>)
    requires fields != [] && FieldsRepeat(fields[1..], seen + {fields[0].key})
    ensures FieldsRepeat(fields, seen)
  {
    var rest, more := fields[1..], seen + {fields[0].key};
    if i :| 0 <= i < |rest| && rest[i].key in more {
      assert fields[i + 1].key in seen || fields[0].key == fields[i + 1].key;
    } else if i, j :| 0 <= i < j < |rest| && rest[i].key == rest[j].key {
      assert fields[i + 1].key == fields[j + 1].key;
    } else {
      var i :| 0 <= i < |rest| && Repeats(rest[i].value);
      assert Repeats(fields[i + 1].value);
    }
  }

  /** On the tokens of any document, cut short anywhere, the scan reports a duplicate only if some
      object repeats a key; on all of them it reports exactly that, and otherwise has read the
      document and nothing after it. */
  lemma {:induction false} ScanReports(v: Document, s: seq<Token>, pos: nat)
    requires Proper(v) && pos <= |s| && Shows(s, pos, Tokens(v))
    ensures Reports(s, Scan(s, pos), pos + |Tokens(v)|, Repeats(v))
    decreases v, 1, 0
  {
    if pos < |s| {
      match v
      case Leaf(t) =>
        assert Tokens(v) == [t] + [];
        ShowsParts(s, pos, [t], []);
      case List(items) =>
        ContainerShows(s, pos, OpenArray, ItemTokens(v, items), CloseArray);
        ScanItemsReports(v, items, s, pos + 1);
      case Members(fields) =>
        ContainerShows(s, pos, OpenObject, FieldTokens(v, fields), CloseObject);
        ScanFieldsReports(v, fields, s, pos + 1, {});
        NothingSeen(v);
    }
  }

  lemma NothingSeen(v: Document)
    requires v.Members?
    ensures FieldsRepeat(v.fields, {}) == Repeats(v)
  {
  }

  lemma ContainerShows(s: seq<Token>, pos: nat, begin: Token, inner: seq<Token>, close: Token)
    requires pos < |s| && Shows(s, pos, [begin] + inner + [close])
    ensures s[pos] == begin && Shows(s, pos + 1, inner + [close])
  {
    assert [begin] + inner + [close] == [begin] + (inner + [close]);
    ShowsParts(s, pos, [begin], inner + [close]);
  }

  lemma {:induction false} ScanItemsReports(v: Document, items: seq<Document>, s: seq<Token>, pos: nat)
    requires v.List? && Proper(v) && pos <= |s| && forall i :: 0 <= i < |items| ==> items[i] in v.items
    requires Shows(s, pos, ItemTokens(v, items) + [CloseArray])
    ensures Reports(s, ScanItems(s, pos), pos + |ItemTokens(v, items)| + 1, SomeRepeats(items))
    decreases v, 0, |items|
  {
    if items == [] {
      assert ItemTokens(v, items) + [CloseArray] == [CloseArray] + [];
      ShowsParts(s, pos, [CloseArray], []);
    } else {
      var head := Tokens(items[0]);
      var mid, end := pos + |head|, pos + |ItemTokens(v, items)| + 1;
      ItemShows(v, items, s, pos);
      ScanReports(items[0], s, pos);
      if mid <= |s| {
        ScanItemsReports(v, items[1..], s, mid);
      }
      ItemReports(s, pos, mid, end, Repeats(items[0]), SomeRepeats(items[1..]));
      SomeRepeatsStep(items);
    }
  }

  ghost predicate SomeRepeats(items: seq<Document>) { exists i :: 0 <= i < |items| && Repeats(items[i]) }

  lemma SomeRepeatsStep(items: seq<Document>)
    requires items != []
    ensures SomeRepeats(items) <==> Repeats(items[0]) || SomeRepeats(items[1..])
  {
    assert forall i :: 0 < i < |items| ==> items[i] == items[1..][i - 1];
  }

  lemma ItemReports(s: seq<Token>, pos: nat, mid: nat, end: nat, inner: bool, later: bool)
    requires pos < mid < end && pos <= |s| && (pos < |s| ==> !Closes(s[pos]))
    requires Reports(s, Scan(s, pos), mid, inner)
    requires mid <= |s| ==> Reports(s, ScanItems(s, mid), end, later)
    ensures Reports(s, ScanItems(s, pos), end, inner || later)
  {
  }

  lemma ItemShows(v: Document, items: seq<Document>, s: seq<Token>, pos: nat)
    requires v.List? && Proper(v) && items != [] && pos <= |s| && forall i :: 0 <= i < |items| ==> items[i] in v.items
    requires Shows(s, pos, ItemTokens(v, items) + [CloseArray])
    ensures Shows(s, pos, Tokens(items[0])) && (pos < |s| ==> !Closes(s[pos]))
    ensures Shows(s, pos + |Tokens(items[0])|, ItemTokens(v, items[1..]) + [CloseArray])
  {
    var head, rest := Tokens(items[0]), ItemTokens(v, items[1..]) + [CloseArray];
    assert ItemTokens(v, items) + [CloseArray] == head + rest;
    ShowsParts(s, pos, head, rest);
    FirstToken(items[0]);
  }

  /** A document does not begin with a closing token. */
  lemma FirstToken(v: Document)
    requires Proper(v)
    ensures !Closes(Tokens(v)[0])
  {
  }

  lemma FieldReports(s: seq<Token>, pos: nat, seen: set<string>, mid: nat, end: nat, inner: bool, later: bool)
    requires pos < |s| && s[pos].Text? && pos < mid < end
    requires Reports(s, Scan(s, pos + 1), mid, inner)
    requires mid <= |s| ==> Reports(s, ScanFields(s, mid, seen + {s[pos].value}), end, later)
    ensures Reports(s, ScanFields(s, pos, seen), end, s[pos].value in seen || inner || later)
  {
  }

  lemma FieldShows(v: Document, fields: seq<Field>, s: seq<Token>, pos: nat)
    requires v.Members? && fields != [] && pos < |s| && forall i :: 0 <= i < |fields| ==> fields[i] in v.fields
    requires Shows(s, pos, FieldTokens(v, fields) + [CloseObject])
    ensures s[pos] == Text(fields[0].key)
    ensures Shows(s, pos + 1, Tokens(fields[0].value))
    ensures Shows(s, pos + 1 + |Tokens(fields[0].value)|, FieldTokens(v, fields[1..]) + [CloseObject])
  {
    var key, head, rest := Text(fields[0].key), Tokens(fields[0].value), FieldTokens(v, fields[1..]);
    Reassociated(key, head, rest, CloseObject);
    ShowsParts(s, pos, [key], head + (rest + [CloseObject]));
    ShowsParts(s, pos + 1, head, rest + [CloseObject]);
  }

  lemma Reassociated(key: Token, head: seq<Token>, rest: seq<Token>, close: Token)
    ensures [key] + head + rest + [close] == [key] + (head + (rest + [close]))
  {
  }

  lemma {:induction false} ScanFieldsReports(v: Document, fields: seq<Field>, s: seq<Token>, pos: nat,
                                             seen: set<string>)
    requires v.Members? && Proper(v) && pos <= |s| && forall i :: 0 <= i < |fields| ==> fields[i] in v.fields
    requires Shows(s, pos, FieldTokens(v, fields) + [CloseObject])
    ensures Reports(s, ScanFields(s, pos, seen), pos + |FieldTokens(v, fields)| + 1, FieldsRepeat(fields, seen))
    decreases v, 0, |fields|
  {
    if fields == [] {
      assert FieldTokens(v, fields) + [CloseObject] == [CloseObject] + [];
      ShowsParts(s, pos, [CloseObject], []);
    } else if pos < |s| {
      var key, value := fields[0].key, fields[0].value;
      var head, rest := Tokens(value), FieldTokens(v, fields[1..]) + [CloseObject];
      FieldShows(v, fields, s, pos);
      ScanReports(value, s, pos + 1);
      FieldsRepeatStep(fields, seen);
      var mid := pos + 1 + |head|;
      if mid <= |s| {
        ScanFieldsReports(v, fields[1..], s, mid, seen + {key});
      }
      FieldReports(s, pos, seen, mid, mid + |rest|, Repeats(value), FieldsRepeat(fields[1..], seen + {key}));
    }
  }

  /** The scan of a whole input: exact on a complete document, never a false alarm on a cut one. */
  method ScanDocument(ghost v: Document, s: seq<Token>, dangling: bool) returns (r: Result<bool, string>)
    requires Proper(v) && Shows(s, 0, Tokens(v))
    ensures |Tokens(v)| <= |s| ==> r == Ok(Repeats(v))
    ensures |s| < |Tokens(v)| ==> r.Err? || (r == Ok(true) && Repeats(v))
  {
    var decoder := new Decoder(s, dangling);
    r := decoder.HasDuplicateKeys();
    ScanReports(v, s, 0);
  }
}
