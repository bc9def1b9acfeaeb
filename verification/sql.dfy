/** The write statements the two entities send to the store, as token
    sequences. The store refuses a statement with more `(` than `)` or more
    `)` than `(`; that count is the only syntax rule modelled here, and it
    does not check that each `)` closes an earlier `(`.

    Both UPDATE statements in the source carry a `)` after the last assignment
    with no `(` before it (models/customer.js:132, models/reservation.js:102),
    so the store rejects every update as written. The corrected statements
    drop that token; the entity modules save through the corrected ones. */
module Sql {

  datatype Token = Word(text: string) | Param(index: nat) | Comma | Equals | Open | Close

  /** Opening minus closing parentheses. */
  function Depth(s: seq<Token>): int {
    if s == [] then 0
    else Depth(s[..|s| - 1]) + (if s[|s| - 1] == Open then 1 else if s[|s| - 1] == Close then -1 else 0)
  }

  /** Accepted: as many `(` as `)`. */
  predicate Accepts(statement: seq<Token>) {
    Depth(statement) == 0
  }

  lemma {:induction false} DepthAppend(a: seq<Token>, b: seq<Token>)
    ensures Depth(a + b) == Depth(a) + Depth(b)
    decreases |b|
  {
    if b != [] {
      assert (a + b)[..|a + b| - 1] == a + b[..|b| - 1];
      DepthAppend(a, b[..|b| - 1]);
    } else {
      assert a + b == a;
    }
  }

  lemma {:induction false} DepthPlain(s: seq<Token>)
    requires Open !in s && Close !in s
    ensures Depth(s) == 0
  {
    if s != [] {
      assert forall t :: t in s[..|s| - 1] ==> t in s;
      DepthPlain(s[..|s| - 1]);
    }
  }

  /** `(t1, t2, ...)` */
  function Parenthesised(s: seq<Token>): seq<Token> {
    [Open] + s + [Close]
  }

  /** `c1, c2, c3, c4` */
  function ColumnList(columns: seq<string>): (r: seq<Token>)
    ensures Open !in r && Close !in r
  {
    if columns == [] then []
    else if |columns| == 1 then [Word(columns[0])]
    else [Word(columns[0]), Comma] + ColumnList(columns[1..])
  }

  /** `$first, $first+1, ..., $first+n-1` */
  function ParamList(first: nat, n: nat): (r: seq<Token>)
    ensures Open !in r && Close !in r
    decreases n
  {
    if n == 0 then []
    else if n == 1 then [Param(first)]
    else [Param(first), Comma] + ParamList(first + 1, n - 1)
  }

  /** `c1=$1, c2=$2, ...` */
  function Assignments(columns: seq<string>, first: nat): (r: seq<Token>)
    ensures Open !in r && Close !in r
    decreases |columns|
  {
    if columns == [] then []
    else if |columns| == 1 then [Word(columns[0]), Equals, Param(first)]
    else [Word(columns[0]), Equals, Param(first), Comma] + Assignments(columns[1..], first + 1)
  }

  const CustomerColumns: seq<string> := ["first_name", "last_name", "phone", "notes"]
  const ReservationColumns: seq<string> := ["customer_id", "num_guests", "start_at", "notes"]

  /** `INSERT INTO t (cols) VALUES ($1, ...) RETURNING id` */
  function Insert(table: string, columns: seq<string>): seq<Token> {
    [Word("INSERT"), Word("INTO"), Word(table)]
      + Parenthesised(ColumnList(columns))
      + [Word("VALUES")]
      + Parenthesised(ParamList(1, |columns|))
      + [Word("RETURNING"), Word("id")]
  }

  /** `UPDATE t SET c1=$1, ... WHERE id=$n+1`, with the stray `)` when `asWritten`. */
  function Update(table: string, columns: seq<string>, asWritten: bool): seq<Token> {
    [Word("UPDATE"), Word(table), Word("SET")]
      + Assignments(columns, 1)
      + (if asWritten then [Close] else [])
      + [Word("WHERE"), Word("id"), Equals, Param(|columns| + 1)]
  }

  lemma ParenthesisedDepth(s: seq<Token>)
    requires Open !in s && Close !in s
    ensures Depth(Parenthesised(s)) == 0
  {
    DepthPlain(s);
    DepthAppend([Open], s);
    DepthAppend([Open] + s, [Close]);
  }

  lemma InsertAccepted(table: string, columns: seq<string>)
    ensures Accepts(Insert(table, columns))
  {
    var cols := Parenthesised(ColumnList(columns));
    var params := Parenthesised(ParamList(1, |columns|));
    var head: seq<Token> := [Word("INSERT"), Word("INTO"), Word(table)];
    var values: seq<Token> := [Word("VALUES")];
    var tail: seq<Token> := [Word("RETURNING"), Word("id")];
    DepthPlain(head);
    DepthPlain(values);
    DepthPlain(tail);
    ParenthesisedDepth(ColumnList(columns));
    ParenthesisedDepth(ParamList(1, |columns|));
    DepthAppend(head, cols);
    DepthAppend(head + cols, values);
    DepthAppend(head + cols + values, params);
    DepthAppend(head + cols + values + params, tail);
  }

  /** The store accepts an update exactly when it lacks the stray `)`. */
  lemma UpdateAcceptedIff(table: string, columns: seq<string>, asWritten: bool)
    ensures Accepts(Update(table, columns, asWritten)) <==> !asWritten
  {
    var head: seq<Token> := [Word("UPDATE"), Word(table), Word("SET")];
    var sets := Assignments(columns, 1);
    var stray: seq<Token> := if asWritten then [Close] else [];
    var tail: seq<Token> := [Word("WHERE"), Word("id"), Equals, Param(|columns| + 1)];
    DepthPlain(head);
    DepthPlain(sets);
    DepthPlain(tail);
    if !asWritten {
      DepthPlain(stray);
    }
    DepthAppend(head, sets);
    DepthAppend(head + sets, stray);
    DepthAppend(head + sets + stray, tail);
  }
}
