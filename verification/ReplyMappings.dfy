/**
  The reply-token table under interleaving callers: look up first, then insert with a conflict
  clause that returns the row that is already there.
 */
module ReplyMappings {
  import opened Text

  type AliasId = int
  type Caller = int

  /** A caller asks for the token of one alias and one original sender. */
  datatype Key = Key(alias: AliasId, sender: string)

  datatype Row = Row(key: Key, token: string)

  /** A caller's place in `get_or_create_reply_mapping`. */
  datatype Place = Asking(key: Key) | Missed(key: Key) | Answered(key: Key, token: string)

  datatype Store = Store(rows: seq<Row>, callers: map<Caller, Place>)

  datatype Action = Call(caller: Caller, key: Key) | Select(caller: Caller) | Insert(caller: Caller, drawn: string)

  function TokenFor(rows: seq<Row>, key: Key): Option<string> {
    if rows == [] then None
    else if rows[|rows| - 1].key == key then Some(rows[|rows| - 1].token)
    else TokenFor(rows[..|rows| - 1], key)
  }

  function KeyFor(rows: seq<Row>, token: string): Option<Key> {
    if rows == [] then None
    else if rows[|rows| - 1].token == token then Some(rows[|rows| - 1].key)
    else KeyFor(rows[..|rows| - 1], token)
  }

  /** The lookup of an incoming reply: the row must exist and its alias and domain must be active. */
  function LookupToken(rows: seq<Row>, active: AliasId -> bool, token: string): Option<Key> {
    match KeyFor(rows, token)
    case None => None
    case Some(key) => if active(key.alias) then Some(key) else None
  }

  /** A freshly drawn token has never been drawn before (a random identifier under a unique column). */
  predicate Enabled(s: Store, a: Action) {
    match a
    case Call(c, _) => c !in s.callers
    case Select(c) => c in s.callers && s.callers[c].Asking?
    case Insert(c, drawn) => c in s.callers && s.callers[c].Missed? && KeyFor(s.rows, drawn).None?
  }

  function Next(s: Store, a: Action): Store
    requires Enabled(s, a)
  {
    match a
    case Call(c, key) => s.(callers := s.callers[c := Asking(key)])
    case Select(c) =>
      var key := s.callers[c].key;
      (match TokenFor(s.rows, key)
       case Some(token) => s.(callers := s.callers[c := Answered(key, token)])
       case None => s.(callers := s.callers[c := Missed(key)]))
    case Insert(c, drawn) =>
      var key := s.callers[c].key;
      match TokenFor(s.rows, key)
      case Some(token) => s.(callers := s.callers[c := Answered(key, token)])
      case None => Store(s.rows + [Row(key, drawn)], s.callers[c := Answered(key, drawn)])
  }

  /** Answers are what the table says, and no token belongs to two keys. */
  ghost predicate Inv(s: Store) {
    && (forall c :: c in s.callers && s.callers[c].Answered? ==>
          TokenFor(s.rows, s.callers[c].key) == Some(s.callers[c].token))
    && (forall key :: TokenFor(s.rows, key).Some? ==> KeyFor(s.rows, TokenFor(s.rows, key).value) == Some(key))
  }

  lemma RowsSnoc(rows: seq<Row>, row: Row)
    ensures forall key :: TokenFor(rows + [row], key) == if row.key == key then Some(row.token) else TokenFor(rows, key)
    ensures forall token ::
              KeyFor(rows + [row], token) == if row.token == token then Some(row.key) else KeyFor(rows, token)
  {
    assert (rows + [row])[..|rows|] == rows;
  }

  lemma StepKeepsInv(s: Store, a: Action)
    requires Inv(s) && Enabled(s, a)
    ensures Inv(Next(s, a))
  {
    if a.Insert? && TokenFor(s.rows, s.callers[a.caller].key).None? {
      var key := s.callers[a.caller].key;
      var s' := Next(s, a);
      RowsSnoc(s.rows, Row(key, a.drawn));
      forall k | TokenFor(s'.rows, k).Some?
        ensures KeyFor(s'.rows, TokenFor(s'.rows, k).value) == Some(k)
      {
        if k != key {
          assert KeyFor(s.rows, TokenFor(s.rows, k).value) == Some(k);
        }
      }
    }
  }

  predicate Possible(start: Store, run: seq<Action>)
    decreases |run|, 0
  {
    run == [] ||
    (Possible(start, run[..|run| - 1]) && Enabled(After(start, run[..|run| - 1]), run[|run| - 1]))
  }

  function After(start: Store, run: seq<Action>): Store
    requires Possible(start, run)
    decreases |run|, 1
  {
    if run == [] then start else Next(After(start, run[..|run| - 1]), run[|run| - 1])
  }

  const Empty := Store([], map[])

  /** Tokens are never reassigned: what a table answers for a key or a token it answers ever after. */
  lemma {:induction false} AnswersStay(start: Store, run: seq<Action>, key: Key)
    requires Inv(start) && Possible(start, run)
    ensures Inv(After(start, run))
    ensures TokenFor(start.rows, key).Some? ==> TokenFor(After(start, run).rows, key) == TokenFor(start.rows, key)
    decreases |run|
  {
    hide Inv;
    if run == [] {
    } else {
      var s, a := After(start, run[..|run| - 1]), run[|run| - 1];
      AnswersStay(start, run[..|run| - 1], key);
      StepKeepsInv(s, a);
      if a.Insert? {
        RowsSnoc(s.rows, Row(s.callers[a.caller].key, a.drawn));
      }
    }
  }

  /**
    In every schedule all calls for one alias and sender return the same token, and looking that
    token up leads back to exactly that alias and sender, then and after any further calls, as long
    as the alias is active.
   */
  lemma OneTokenPerPair(run: seq<Action>, later: seq<Action>, c: Caller, d: Caller, active: AliasId -> bool)
    requires Possible(Empty, run) && Possible(After(Empty, run), later)
    requires var s := After(Empty, run); c in s.callers && s.callers[c].Answered?
    requires var e := After(After(Empty, run), later);
             d in e.callers && e.callers[d].Answered? && e.callers[d].key == After(Empty, run).callers[c].key
    ensures var s := After(Empty, run);
            var e := After(s, later);
            && e.callers[d].token == s.callers[c].token
            && LookupToken(e.rows, active, s.callers[c].token) ==
                 if active(s.callers[c].key.alias) then Some(s.callers[c].key) else None
  {
    hide Possible, After;
    var key := After(Empty, run).callers[c].key;
    AnswersStay(Empty, run, key);
    AnswersStay(After(Empty, run), later, key);
  }

  /** The column constraints hold at all times: no two rows share a key, and no two rows share a token. */
  lemma {:induction false} RowsStayUnique(run: seq<Action>, i: nat, j: nat)
    requires Possible(Empty, run)
    requires i < j < |After(Empty, run).rows|
    ensures var rows := After(Empty, run).rows; rows[i].key != rows[j].key && rows[i].token != rows[j].token
    decreases |run|
  {
    var s, a := After(Empty, run[..|run| - 1]), run[|run| - 1];
    if j < |s.rows| {
      RowsStayUnique(run[..|run| - 1], i, j);
    } else {
      RowFound(s.rows, i);
    }
  }

  lemma {:induction false} RowFound(rows: seq<Row>, i: nat)
    requires i < |rows|
    ensures TokenFor(rows, rows[i].key).Some? && KeyFor(rows, rows[i].token).Some?
    decreases |rows|
  {
    if i >= |rows| - 1 {
    } else {
      RowFound(rows[..|rows| - 1], i);
    }
  }

  /** The table as one call uses it when no other caller comes between its two steps. */
  class Table {
    var rows: seq<Row>

    constructor ()
      ensures rows == []
    {
      rows := [];
    }

    /** Finds the token of a pair, or stores the freshly drawn one. */
    method GetOrCreateReplyMapping(key: Key, drawn: string) returns (token: string)
      requires KeyFor(rows, drawn).None?
      modifies this
      ensures TokenFor(rows, key) == Some(token)
      ensures rows == if TokenFor(old(rows), key).Some? then old(rows) else old(rows) + [Row(key, drawn)]
    {
      var existing := TokenFor(rows, key);
      if existing.Some? {
        return existing.value;
      }
      RowsSnoc(rows, Row(key, drawn));
      rows := rows + [Row(key, drawn)];
      return drawn;
    }
  }
}
