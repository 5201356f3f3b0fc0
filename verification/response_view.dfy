/** `ResponseViewer`'s two pure helpers: the status colour class and the
    unit `formatSize` picks (with the exact text of the bytes case). */
module ResponseView {
  import Text
  import Workspace
  import opened Json

  /** `getStatusClass`. */
  function StatusClass(status: int): (c: string)
    ensures 200 <= status < 300 ==> c == "status-2xx"
    ensures 300 <= status < 400 ==> c == "status-3xx"
    ensures 400 <= status < 500 ==> c == "status-4xx"
    ensures status >= 500 ==> c == "status-5xx"
    ensures status < 200 ==> c == ""
  {
    if 200 <= status < 300 then "status-2xx"
    else if 300 <= status < 400 then "status-3xx"
    else if 400 <= status < 500 then "status-4xx"
    else if status >= 500 then "status-5xx"
    else ""
  }

  /** Read the other way: below 600 the class names the status's hundreds
      digit, and every status from 500 up shares the 5xx class. */
  lemma StatusClassNamesHundreds(status: int)
    ensures 200 <= status < 600 ==> StatusClass(status) == "status-" + [Text.Digit(status / 100)] + "xx"
    ensures StatusClass(status) == "" <==> status < 200
  {
    if 200 <= status < 600 {
      var d := status / 100;
      assert 2 <= d <= 5;
      assert Text.Digit(d) == (if d == 2 then '2' else if d == 3 then '3' else if d == 4 then '4' else '5');
    }
  }

  /** The response recorded for a failed execution gets no status class. */
  lemma ErrorResponseUnclassified(error: Json, stamp: string)
    ensures StatusClass(Workspace.ErrorResponse(error, stamp).status) == ""
  {
  }

  datatype SizeUnit = B | KB | MB

  function Rank(u: SizeUnit): nat {
    match u
    case B => 0
    case KB => 1
    case MB => 2
  }

  /** The branch `formatSize` takes. */
  function UnitFor(bytes: int): (u: SizeUnit)
    ensures u == B <==> bytes < 1024
    ensures u == KB <==> 1024 <= bytes < 1024 * 1024
    ensures u == MB <==> bytes >= 1048576
  {
    if bytes < 1024 then B else if bytes < 1024 * 1024 then KB else MB
  }

  /** A larger size never gets a smaller unit. */
  lemma UnitMonotone(a: int, b: int)
    requires a <= b
    ensures Rank(UnitFor(a)) <= Rank(UnitFor(b))
  {
  }

  /** The bytes case: the count in decimal, a space, and `B`. */
  function BytesLabel(bytes: nat): (s: string)
    requires bytes < 1024
    ensures |s| >= 3 && s[|s| - 2..] == " B"
    ensures forall i :: 0 <= i < |s| - 2 ==> Text.IsDigit(s[i])
    ensures Text.ParseDecimal(s[..|s| - 2]) == bytes
  {
    var digits := Text.Decimal(bytes);
    Text.DecimalRoundTrip(bytes);
    var s := digits + " B";
    assert s[..|s| - 2] == digits;
    s
  }
}
