/** Strict decoding of persisted grant material (internal/authority/material.go), with the
    text each database writes, so that decoding can be stated as an inverse. */
module GrantMaterial {
  import opened Wrappers
  import opened Text

  datatype DecodeError = EmptyMaterial | MalformedJson | NotCanonical | NotArrayLiteral | UnexpectedQuoting

  // ---------- JSON columns ----------

  /** The text of a JSON column: blank, undecodable at the wanted type, or an encoding of a
      value, which may or may not be the one encoding `json.Marshal` writes for it. */
  datatype JsonText<T> = BlankText | Undecodable | Encoded(value: T, canonical: bool)

  /** The rule SQLite columns are held to: exactly the canonical text decodes. */
  function DecodeCanonical<T>(text: JsonText<T>): Result<T, DecodeError>
  {
    match text
    case BlankText => Err(EmptyMaterial)
    case Undecodable => Err(MalformedJson)
    case Encoded(value, canonical) => if canonical then Ok(value) else Err(NotCanonical)
  }

  /** PostgreSQL re-renders jsonb, so only decodability can be required of it. */
  function DecodeJsonb<T>(text: JsonText<T>): Result<T, DecodeError>
  {
    match text
    case BlankText => Err(EmptyMaterial)
    case Undecodable => Err(MalformedJson)
    case Encoded(value, _) => Ok(value)
  }

  // ---------- text[] literals ----------

  function LowerAscii(c: char): char
  {
    if 'A' <= c <= 'Z' then c + 32 as char else c
  }

  predicate IsNullWord(e: string)
  {
    |e| == 4 && LowerAscii(e[0]) == 'n' && LowerAscii(e[1]) == 'u' && LowerAscii(e[2]) == 'l' && LowerAscii(e[3]) == 'l'
  }

  /** When PostgreSQL puts an array element in double quotes. */
  predicate NeedsQuotes(e: string)
  {
    e == "" || IsNullWord(e) || exists i :: 0 <= i < |e| && (e[i] in "\"\\{}," || Text.Blank(e[i]))
  }

  function Escape(e: string): string
  {
    if e == "" then ""
    else (if e[0] in "\"\\" then ['\\', e[0]] else [e[0]]) + Escape(e[1..])
  }

  function RenderElement(e: string): string
  {
    if NeedsQuotes(e) then "\"" + Escape(e) + "\"" else e
  }

  function RenderElements(list: seq<string>): seq<string>
  {
    seq(|list|, i requires 0 <= i < |list| => RenderElement(list[i]))
  }

  /** The text PostgreSQL returns for a one-dimensional text[] value. */
  function RenderTextArray(list: seq<string>): string
  {
    "{" + Join(RenderElements(list), ',') + "}"
  }

  predicate HasQuoting(s: string) { '"' in s || '\\' in s || '{' in s }

  /** Anything but an unquoted literal is an error; the empty literal is the empty list. */
  function ParseTextArray(s: string): Result<seq<string>, DecodeError>
  {
    if s == "" then Ok([])
    else if |s| < 2 || s[0] != '{' || s[|s| - 1] != '}' then Err(NotArrayLiteral)
    else
      var inner := s[1..|s| - 1];
      if inner == "" then Ok([])
      else if HasQuoting(inner) then Err(UnexpectedQuoting)
      else Ok(Split(inner, ','))
  }

  lemma RenderInner(list: seq<string>)
    ensures var s := RenderTextArray(list);
            |s| >= 2 && s[0] == '{' && s[|s| - 1] == '}' && s[1..|s| - 1] == Join(RenderElements(list), ',')
  {
  }

  lemma {:induction false} CharInJoin(parts: seq<string>, c: char)
    requires c != ','
    ensures c in Join(parts, ',') <==> exists i :: 0 <= i < |parts| && c in parts[i]
  {
    if |parts| > 1 {
      CharInJoin(parts[1..], c);
      assert forall i :: 0 <= i < |parts| - 1 ==> parts[1..][i] == parts[i + 1];
      if c in Join(parts[1..], ',') {
        var i :| 0 <= i < |parts[1..]| && c in parts[1..][i];
        assert c in parts[i + 1];
      }
      if i :| 0 <= i < |parts| && c in parts[i] {
        assert i == 0 || c in parts[1..][i - 1];
      }
    } else if |parts| == 1 {
      assert c in parts[0] ==> exists i :: 0 <= i < |parts| && c in parts[i];
    }
  }

  lemma {:induction false} JoinNonEmpty(parts: seq<string>)
    requires parts != [] && (|parts| == 1 ==> parts[0] != "")
    ensures Join(parts, ',') != ""
  {
  }

  /** PostgreSQL round trip, exactly: what was stored comes back precisely when no element
      had to be quoted; otherwise the read is refused, never read as another list. */
  lemma TextArrayRoundTrip(list: seq<string>)
    ensures (forall i :: 0 <= i < |list| ==> !NeedsQuotes(list[i]))
            <==> ParseTextArray(RenderTextArray(list)) == Ok(list)
    ensures (exists i :: 0 <= i < |list| && NeedsQuotes(list[i]))
            ==> ParseTextArray(RenderTextArray(list)) == Err(UnexpectedQuoting)
  {
    RenderInner(list);
    var parts := RenderElements(list);
    var inner := Join(parts, ',');
    if k :| 0 <= k < |list| && NeedsQuotes(list[k]) {
      assert parts[k][0] == '"';
      assert '"' in parts[k];
      CharInJoin(parts, '"');
      assert inner != "";
    } else {
      assert parts == list;
      if list != [] {
        JoinNonEmpty(list);
        CharInJoin(list, '"');
        CharInJoin(list, '\\');
        CharInJoin(list, '{');
        forall i | 0 <= i < |list|
          ensures '"' !in list[i] && '\\' !in list[i] && '{' !in list[i] && ',' !in list[i]
        {
          assert !NeedsQuotes(list[i]);
        }
        SplitJoin(list, ',');
      }
    }
  }
}
