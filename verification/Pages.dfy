/** The newest-first page of rows that the results endpoint returns. */
module Pages {
  import opened Wrappers
  import opened Decimal
  import opened Text

  const DEFAULT_LIMIT := 2000
  const MAX_LIMIT := 10000

  function Reversed<T>(s: seq<T>): (r: seq<T>)
    ensures |r| == |s|
  {
    seq(|s|, i requires 0 <= i < |s| => s[|s| - 1 - i])
  }

  /** At most limit rows, newest first; a limit that is not positive means no limit. */
  function NewestPage<T>(rows: seq<T>, limit: int): seq<T> {
    var newest := Reversed(rows);
    if limit > 0 && |newest| > limit then newest[..limit] else newest
  }

  /** Swaps the ends inwards. */
  method ReverseInPlace<T>(a: array<T>)
    modifies a
    ensures a[..] == Reversed(old(a[..]))
  {
    var i, j := 0, a.Length - 1;
    while i < j
      invariant 0 <= i <= j + 1 && i + j == a.Length - 1
      invariant forall k :: 0 <= k < i || j < k < a.Length ==> a[k] == old(a[a.Length - 1 - k])
      invariant forall k :: i <= k <= j ==> a[k] == old(a[k])
    {
      a[i], a[j] := a[j], a[i];
      i, j := i + 1, j - 1;
    }
  }

  /** The page is exactly the last rows appended, in reverse, and as many of them as the limit allows. */
  lemma NewestPageIsLastRows<T>(rows: seq<T>, limit: int)
    ensures var page := NewestPage(rows, limit);
      && |page| == (if 0 < limit < |rows| then limit else |rows|)
      && Reversed(page) == rows[|rows| - |page|..]
  {
  }

  /** A smaller page is a prefix of a larger one. */
  lemma SmallerPageIsPrefix<T>(rows: seq<T>, small: int, large: int)
    requires 0 < small <= large
    ensures NewestPage(rows, small) <= NewestPage(rows, large)
  {
    var page := Reversed(rows);
    if |page| > large {
      assert page[..small] == page[..large][..small];
    }
  }

  // ----- the endpoint

  datatype Reply<T> = BadRequest | Page(runs: seq<T>, total: nat, limit: nat, truncated: bool)

  /** The limit a request asks for: 2000 unless given, at most 10000, and only positive decimal integers. */
  method ResultsLimit(raw: string) returns (r: Option<nat>)
    ensures r == LimitOf(raw)
  {
    var limit: int := DEFAULT_LIMIT;
    var text := TrimSpaces(raw);
    if text != "" {
      var parsed := Atoi(text);
      if parsed.None? || parsed.value <= 0 {
        return None;
      }
      limit := parsed.value;
    }
    if limit > MAX_LIMIT {
      limit := MAX_LIMIT;
    }
    r := Some(limit);
  }

  function LimitOf(raw: string): Option<nat> {
    var text := TrimSpaces(raw);
    if text == "" then Some(DEFAULT_LIMIT)
    else
      match Atoi(text)
      case None => None
      case Some(n) => if n <= 0 then None else Some(if n > MAX_LIMIT then MAX_LIMIT else n)
  }

  function Results<T>(rows: seq<T>, raw: string): Reply<T> {
    match LimitOf(raw)
    case None => BadRequest
    case Some(limit) =>
      var runs := NewestPage(rows, limit);
      Page(runs, |rows|, limit, |rows| > |runs|)
  }

  /**
   Every accepted request gets the newest rows up to its limit, the true total, and a truncation mark exactly when
   some stored row is missing from the page.
   */
  lemma ResultsPage<T>(rows: seq<T>, raw: string)
    requires LimitOf(raw).Some?
    ensures var reply := Results(rows, raw);
      && reply.limit == LimitOf(raw).value && reply.total == |rows|
      && 0 < reply.limit <= MAX_LIMIT
      && Reversed(reply.runs) == rows[|rows| - |reply.runs|..]
      && |reply.runs| == (if reply.limit < |rows| then reply.limit else |rows|)
      && (reply.truncated <==> |reply.runs| < reply.total)
      && (reply.truncated <==> Reversed(reply.runs) != rows)
  {
    NewestPageIsLastRows(rows, LimitOf(raw).value);
  }

  /**
   Printing any 64-bit number and asking for it gives that number, cut to the maximum, or is refused if it is not
   positive. White space around it changes nothing, and a limit of white space only is the default one.
   */
  lemma LimitOfPrinted(i: int, left: string, right: string)
    requires -0x8000_0000_0000_0000 <= i < 0x8000_0000_0000_0000 && White(left) && White(right)
    ensures LimitOf(left + PrintInt(i) + right) == if i <= 0 then None else Some(if i > MAX_LIMIT then MAX_LIMIT else i)
    ensures LimitOf(left) == Some(DEFAULT_LIMIT)
  {
    hide Atoi;
    var s := PrintInt(i);
    assert IsDigit(s[|s| - 1]) && (s[0] == '-' || IsDigit(s[0]));
    TrimPadded(left, s, right);
    TrimWhite(left);
    AtoiPrintInt(i);
  }

  /** The reply to a limit: so many of the newest rows, newest first, the true total, and whether rows are missing. */
  ghost predicate NewestRows<T>(reply: Reply<T>, rows: seq<T>, limit: nat) {
    && reply.Page? && reply.limit == limit && reply.total == |rows|
    && |reply.runs| == (if limit < |rows| then limit else |rows|)
    && (forall k :: 0 <= k < |reply.runs| ==> reply.runs[k] == rows[|rows| - 1 - k])
    && (reply.truncated <==> limit < |rows|)
  }

  lemma PageOfRows<T>(rows: seq<T>, raw: string)
    requires LimitOf(raw).Some?
    ensures NewestRows(Results(rows, raw), rows, LimitOf(raw).value)
  {
    hide Atoi, TrimSpaces;
  }

  /**
   Asking for any number of rows gets just that many, up to 10000 and as far as there are rows; asking for none, or for
   something that is no positive number, is refused; not asking gets 2000.
   */
  lemma ResultsPrinted<T>(rows: seq<T>, i: int, left: string, right: string)
    requires -0x8000_0000_0000_0000 <= i < 0x8000_0000_0000_0000 && White(left) && White(right)
    ensures i > 0 ==> NewestRows(Results(rows, left + PrintInt(i) + right), rows, if i < 10000 then i else 10000)
    ensures i <= 0 ==> Results(rows, left + PrintInt(i) + right) == BadRequest
    ensures NewestRows(Results(rows, left), rows, 2000)
  {
    LimitOfPrinted(i, left, right);
    PageOfRows(rows, left);
    if i > 0 {
      PageOfRows(rows, left + PrintInt(i) + right);
    }
    hide LimitOf, PrintInt, NewestRows, White;
  }

  /** Any other text is refused. */
  lemma LimitRefused(left: string, s: string, right: string)
    requires White(left) && White(right) && EndsTrimmed(s)
    requires exists k :: 0 <= k < |s| && s[k] !in "0123456789" && !(k == 0 && s[k] in "+-")
    ensures LimitOf(left + s + right) == None
  {
    TrimPadded(left, s, right);
    AtoiRefuses(s);
    hide Atoi, TrimSpaces;
  }
}
