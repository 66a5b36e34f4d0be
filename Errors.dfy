/**
 * The application's error classes: BadRequestError, UnauthorizedError,
 * ForbiddenError and NotFoundError. Each is an `Error` whose `name` is its own
 * class name; the first three keep the message they are given, NotFoundError
 * builds "<modelName> with id <id> not found".
 */
module Errors {

  /** Which of the four classes an error is an instance of. */
  datatype ErrorKind = BadRequest | Unauthorized | Forbidden | NotFound

  /** An instance of one of the four classes, with its `message`. */
  datatype AppError = AppError(kind: ErrorKind, message: string) {
    /** The `name` property the constructor sets: the class name, which ends in "Error". */
    function Name(): (n: string)
      ensures |n| > 5 && n[|n| - 5..] == "Error"
    {
      match kind
      case BadRequest => "BadRequestError"
      case Unauthorized => "UnauthorizedError"
      case Forbidden => "ForbiddenError"
      case NotFound => "NotFoundError"
    }
  }

  /** Each class keeps the message it is given and is named after itself. */
  function BadRequestError(message: string): (e: AppError)
    ensures e.kind == BadRequest && e.message == message && e.Name() == "BadRequestError"
  {
    AppError(BadRequest, message)
  }

  function UnauthorizedError(message: string): (e: AppError)
    ensures e.kind == Unauthorized && e.message == message && e.Name() == "UnauthorizedError"
  {
    AppError(Unauthorized, message)
  }

  function ForbiddenError(message: string): (e: AppError)
    ensures e.kind == Forbidden && e.message == message && e.Name() == "ForbiddenError"
  {
    AppError(Forbidden, message)
  }

  /** A NotFoundError builds its message from the model name and the id; see NotFoundMessageNamesId. */
  function NotFoundError(modelName: string, id: int): (e: AppError)
    ensures e.kind == NotFound && e.Name() == "NotFoundError"
    ensures |e.message| >= |modelName| + 20
    ensures e.message[..|modelName|] == modelName
    ensures e.message[|modelName|..|modelName| + 9] == " with id "
    ensures e.message[|e.message| - 10..] == " not found"
  {
    AppError(NotFound, modelName + " with id " + IdText(id) + " not found")
  }

  /** The four `name` values are pairwise distinct, so `name` tells the class. */
  lemma NamesDistinct(e1: AppError, e2: AppError)
    ensures e1.Name() == e2.Name() <==> e1.kind == e2.kind
  {
  }

  // ---- Decimal rendering of an id, as a template literal shows an integer ----

  function DigitChar(d: nat): (c: char)
    requires d < 10
    ensures '0' <= c <= '9' && c as int - '0' as int == d
  {
    ('0' as int + d) as char
  }

  predicate AllDigits(s: string) {
    forall i :: 0 <= i < |s| ==> '0' <= s[i] <= '9'
  }

  /** The decimal digits of `n`, without leading zeros. */
  function Decimal(n: nat): (s: string)
    ensures |s| >= 1 && AllDigits(s)
    ensures s[0] != '-'
  {
    if n < 10 then [DigitChar(n)]
    else Decimal(n / 10) + [DigitChar(n % 10)]
  }

  /** `${id}` for an integer id: a minus sign for negative ids, then the digits. */
  function IdText(id: int): string {
    if id < 0 then "-" + Decimal(-id) else Decimal(id)
  }

  /** Reads back a string of decimal digits. */
  function DecimalValue(s: string): nat
    requires AllDigits(s)
  {
    if s == [] then 0
    else DecimalValue(s[..|s| - 1]) * 10 + (s[|s| - 1] as int - '0' as int)
  }

  lemma {:induction false} DecimalRoundTrip(n: nat)
    ensures DecimalValue(Decimal(n)) == n
  {
    if n >= 10 {
      var s := Decimal(n);
      assert s[..|s| - 1] == Decimal(n / 10);
      DecimalRoundTrip(n / 10);
    }
  }

  /** Reads back the text of an id. */
  function IdValue(s: string): int
    requires |s| >= 1
    requires s[0] == '-' ==> AllDigits(s[1..])
    requires s[0] != '-' ==> AllDigits(s)
  {
    if s[0] == '-' then -(DecimalValue(s[1..]) as int) else DecimalValue(s)
  }

  /** The id text determines the id. */
  lemma IdTextRoundTrip(id: int)
    ensures |IdText(id)| >= 1
    ensures IdText(id)[0] == '-' ==> AllDigits(IdText(id)[1..])
    ensures IdText(id)[0] != '-' ==> AllDigits(IdText(id))
    ensures IdValue(IdText(id)) == id
  {
    if id < 0 {
      DecimalRoundTrip(-id);
      assert IdText(id)[1..] == Decimal(-id);
    } else {
      DecimalRoundTrip(id);
    }
  }

  /**
   * A NotFoundError message names the model and the id: it starts with the
   * model name, ends with " not found", and two ids give the same message only
   * when they are the same id.
   */
  lemma NotFoundMessageNamesId(modelName: string, id1: int, id2: int)
    ensures modelName <= NotFoundError(modelName, id1).message
    ensures var m := NotFoundError(modelName, id1).message; |m| >= 10 && m[|m| - 10..] == " not found"
    ensures var m := NotFoundError(modelName, id1).message;
            var mid := m[|modelName| + 9..|m| - 10];
            && m[|modelName|..|modelName| + 9] == " with id "
            && |mid| >= 1 && (mid[0] == '-' ==> AllDigits(mid[1..])) && (mid[0] != '-' ==> AllDigits(mid))
            && IdValue(mid) == id1
    ensures NotFoundError(modelName, id1).message == NotFoundError(modelName, id2).message <==> id1 == id2
  {
    var prefix := modelName + " with id ";
    var m1, m2 := NotFoundError(modelName, id1).message, NotFoundError(modelName, id2).message;
    assert m1 == prefix + IdText(id1) + " not found";
    IdTextRoundTrip(id1);
    assert m1[|prefix|..|m1| - 10] == IdText(id1);
    if m1 == m2 {
      var t1, t2 := IdText(id1), IdText(id2);
      assert |t1| == |t2|;
      assert m1[|prefix|..|prefix| + |t1|] == t1;
      assert m2[|prefix|..|prefix| + |t2|] == t2;
      IdTextRoundTrip(id1);
      IdTextRoundTrip(id2);
    }
  }
}
