/** Message history (`list_messages` in vivacapi/crud/message.py): newest first, keyset
    pagination on (created_at, uid). */
module Messages {
  import opened Wrappers
  import opened Keyset

  datatype Message = Message(conversation: string, createdAt: int, deleted: bool)

  /** Messages by uid. */
  type Table = map<string, Message>

  datatype Token = Token(createdAt: int, uid: string)

  datatype Error = ValidationError

  /** The database's uid order and the cursor codec. */
  datatype Env = Env(
    uidLess: (string, string) -> bool,
    encodeCursor: Token -> string,
    decodeCursor: string -> Option<Token>
  )

  ghost predicate EnvOk(env: Env) {
    && StrictTotal(env.uidLess)
    && forall t :: env.encodeCursor(t) != "" && env.decodeCursor(env.encodeCursor(t)) == Some(t)
  }

  /** ORDER BY created_at DESC, uid DESC. */
  function NewerFirst(env: Env): (Token, Token) -> bool {
    (a: Token, b: Token) => b.createdAt < a.createdAt || (b.createdAt == a.createdAt && env.uidLess(b.uid, a.uid))
  }

  lemma NewerFirstIsTotal(env: Env)
    requires EnvOk(env)
    ensures StrictTotal(NewerFirst(env))
  {
    var lt := NewerFirst(env);
    forall x ensures !lt(x, x) {
      assert !env.uidLess(x.uid, x.uid);
    }
    forall x, y, z | lt(x, y) && lt(y, z) ensures lt(x, z) {
      assert env.uidLess(z.uid, y.uid) && env.uidLess(y.uid, x.uid) ==> env.uidLess(z.uid, x.uid);
    }
    forall x, y ensures x == y || lt(x, y) || lt(y, x) {
      assert x.uid == y.uid || env.uidLess(x.uid, y.uid) || env.uidLess(y.uid, x.uid);
    }
  }

  function KeyIn(table: Table, u: string): Token
    requires u in table
  {
    Token(table[u].createdAt, u)
  }

  predicate Shown(table: Table, conversation: string, u: string) {
    u in table && table[u].conversation == conversation && !table[u].deleted
  }

  function ShownKeys(table: Table, conversation: string): set<Token> {
    set u | u in table && Shown(table, conversation, u) :: KeyIn(table, u)
  }

  datatype Response = Response(keys: seq<Token>, nextCursor: Option<string>, hasMore: bool)

  function PageResponse(env: Env, page: Page<Token>): Response {
    Response(page.rows, CursorAfter(env, page.next), page.hasMore)
  }

  function CursorAfter(env: Env, last: Option<Token>): Option<string> {
    if last.Some? then Some(env.encodeCursor(last.value)) else None
  }

  ghost function ListMessages(env: Env, table: Table, conversation: string, cursor: Option<string>, limit: nat)
    : Result<Response, Error>
    requires EnvOk(env) && limit >= 1
  {
    NewerFirstIsTotal(env);
    var keys := ShownKeys(table, conversation);
    if cursor.Some? && cursor.value != "" then
      match env.decodeCursor(cursor.value)
      case None => Err(ValidationError)
      case Some(token) => Ok(PageResponse(env, Fetch(NewerFirst(env), keys, Some(token), limit)))
    else Ok(PageResponse(env, Fetch(NewerFirst(env), keys, None, limit)))
  }

  ghost predicate MessageWalk(
    env: Env, tables: seq<Table>, conversation: string, cursor: Option<string>, limit: nat, answers: seq<Response>)
    requires EnvOk(env) && limit >= 1
    decreases |answers|
  {
    && |answers| == |tables| > 0
    && ListMessages(env, tables[0], conversation, cursor, limit) == Ok(answers[0])
    && (answers[0].hasMore <==> |answers| > 1)
    && (|answers| > 1 ==> MessageWalk(env, tables[1..], conversation, answers[0].nextCursor, limit, answers[1..]))
  }

  ghost function Listed(answers: seq<Response>): seq<Token> {
    if answers == [] then [] else answers[0].keys + Listed(answers[1..])
  }

  function ShownKeysAt(tables: seq<Table>, conversation: string): seq<set<Token>> {
    seq(|tables|, i requires 0 <= i < |tables| => ShownKeys(tables[i], conversation))
  }

  lemma ShownKeysAtTail(tables: seq<Table>, conversation: string)
    requires tables != []
    ensures ShownKeysAt(tables, conversation)[0] == ShownKeys(tables[0], conversation)
    ensures ShownKeysAt(tables, conversation)[1..] == ShownKeysAt(tables[1..], conversation)
  {
    var a, b := ShownKeysAt(tables, conversation)[1..], ShownKeysAt(tables[1..], conversation);
    forall i | 0 <= i < |a| ensures a[i] == b[i] {
      assert tables[1..][i] == tables[i + 1];
    }
  }

  lemma {:induction false} MessageWalkIsKeysetWalk(
    env: Env, tables: seq<Table>, conversation: string, last: Option<Token>, limit: nat, answers: seq<Response>)
    returns (pages: seq<Page<Token>>)
    requires EnvOk(env) && limit >= 1 && StrictTotal(NewerFirst(env))
    requires MessageWalk(env, tables, conversation, CursorAfter(env, last), limit, answers)
    ensures Walk(NewerFirst(env), ShownKeysAt(tables, conversation), last, limit, pages)
    ensures Rows(pages) == Listed(answers)
    decreases |answers|
  {
    var keys := ShownKeysAt(tables, conversation);
    var page := Fetch(NewerFirst(env), keys[0], last, limit);
    assert answers[0] == PageResponse(env, page);
    ShownKeysAtTail(tables, conversation);
    var rest := [];
    if |answers| > 1 {
      rest := MessageWalkIsKeysetWalk(env, tables[1..], conversation, page.next, limit, answers[1..]);
    }
    WalkCons(NewerFirst(env), keys, last, limit, page, rest);
    pages := [page] + rest;
  }

  ghost predicate AlwaysShown(tables: seq<Table>, conversation: string, u: string) {
    forall i :: 0 <= i < |tables| ==> Shown(tables[i], conversation, u)
  }

  /** Neither the key nor the conversation of a message is ever edited: between any two
      fetches, a message that is in both tables has the same creation time. */
  ghost predicate KeysFixed(tables: seq<Table>) {
    forall i, j, u :: 0 <= i < |tables| && 0 <= j < |tables| && u in tables[i] && u in tables[j] ==>
      tables[i][u].createdAt == tables[j][u].createdAt
  }

  /** The history under concurrent posting and deleting: every message shown at every fetch is
      returned, no message is returned twice, and messages come newest first across pages. */
  lemma MessageWalkUnderEdits(
    env: Env, tables: seq<Table>, conversation: string, limit: nat, answers: seq<Response>)
    requires EnvOk(env) && limit >= 1 && KeysFixed(tables)
    requires MessageWalk(env, tables, conversation, None, limit, answers)
    ensures forall i, j :: 0 <= i < j < |Listed(answers)| ==>
              && Listed(answers)[i].uid != Listed(answers)[j].uid
              && Listed(answers)[i].createdAt >= Listed(answers)[j].createdAt
    ensures forall u :: AlwaysShown(tables, conversation, u) ==>
              exists i :: 0 <= i < |Listed(answers)| && Listed(answers)[i].uid == u
  {
    NewerFirstIsTotal(env);
    var pages := MessageWalkIsKeysetWalk(env, tables, conversation, None, limit, answers);
    var keys, all := ShownKeysAt(tables, conversation), Listed(answers);
    WalkIsCompleteAndDuplicateFree(NewerFirst(env), keys, limit, pages);
    forall i, j | 0 <= i < j < |all| ensures all[i].uid != all[j].uid && all[i].createdAt >= all[j].createdAt {
      assert NewerFirst(env)(all[i], all[j]) && all[i] in Rows(pages) && all[j] in Rows(pages);
      LaterTokensDiffer(env, tables, conversation, all[i], all[j]);
    }
    forall u | AlwaysShown(tables, conversation, u)
      ensures exists i :: 0 <= i < |all| && all[i].uid == u
    {
      TokenStaysShown(tables, conversation, u);
      assert KeyIn(tables[0], u) in all;
    }
  }

  lemma LaterTokensDiffer(env: Env, tables: seq<Table>, conversation: string, a: Token, b: Token)
    requires EnvOk(env) && KeysFixed(tables) && NewerFirst(env)(a, b)
    requires exists i :: 0 <= i < |tables| && a in ShownKeysAt(tables, conversation)[i]
    requires exists i :: 0 <= i < |tables| && b in ShownKeysAt(tables, conversation)[i]
    ensures a.uid != b.uid && a.createdAt >= b.createdAt
  {
    OneTokenPerMessage(tables, conversation, a, b);
    assert !env.uidLess(a.uid, a.uid);
  }

  lemma OneTokenPerMessage(tables: seq<Table>, conversation: string, a: Token, b: Token)
    requires KeysFixed(tables)
    requires exists i :: 0 <= i < |tables| && a in ShownKeysAt(tables, conversation)[i]
    requires exists i :: 0 <= i < |tables| && b in ShownKeysAt(tables, conversation)[i]
    ensures a.uid == b.uid ==> a == b
  {
    var m :| 0 <= m < |tables| && a in ShownKeysAt(tables, conversation)[m];
    var n :| 0 <= n < |tables| && b in ShownKeysAt(tables, conversation)[n];
    assert a in ShownKeys(tables[m], conversation) && b in ShownKeys(tables[n], conversation);
  }

  lemma TokenStaysShown(tables: seq<Table>, conversation: string, u: string)
    requires KeysFixed(tables) && AlwaysShown(tables, conversation, u) && tables != []
    ensures u in tables[0]
    ensures forall i :: 0 <= i < |tables| ==> KeyIn(tables[0], u) in ShownKeysAt(tables, conversation)[i]
  {
    assert Shown(tables[0], conversation, u);
    forall i | 0 <= i < |tables| ensures KeyIn(tables[0], u) in ShownKeysAt(tables, conversation)[i] {
      assert Shown(tables[i], conversation, u) && KeyIn(tables[i], u) == KeyIn(tables[0], u);
    }
  }

  lemma ShownKeysAtRest(table: Table, conversation: string, n: nat)
    ensures ShownKeysAt(Same(table, n), conversation) == Same(ShownKeys(table, conversation), n)
  {
  }

  /** The history at rest: the joined answers are exactly the shown messages, newest first. */
  lemma MessageWalkAtRest(env: Env, table: Table, conversation: string, limit: nat, answers: seq<Response>)
    requires EnvOk(env) && limit >= 1 && StrictTotal(NewerFirst(env))
    requires MessageWalk(env, Same(table, |answers|), conversation, None, limit, answers)
    ensures Listed(answers) == OrderBy(NewerFirst(env), ShownKeys(table, conversation))
  {
    var tables, keys := Same(table, |answers|), ShownKeys(table, conversation);
    var pages := MessageWalkIsKeysetWalk(env, tables, conversation, None, limit, answers);
    ShownKeysAtRest(table, conversation, |pages|);
    WalkOnFixedTable(NewerFirst(env), keys, None, limit, pages);
    WalkAtRestIsExact(NewerFirst(env), keys, limit);
  }

  /** These are the messages of the conversation that are not deleted, and of any two the later
      one comes first, or between equal times the one with the greater uid. */
  lemma HistoryShowsConversation(env: Env, table: Table, conversation: string, limit: nat, answers: seq<Response>)
    requires EnvOk(env) && limit >= 1
    requires MessageWalk(env, Same(table, |answers|), conversation, None, limit, answers)
    ensures forall u :: (exists i :: 0 <= i < |Listed(answers)| && Listed(answers)[i].uid == u) <==>
              u in table && table[u].conversation == conversation && !table[u].deleted
    ensures forall i, j :: 0 <= i < j < |Listed(answers)| ==>
              var x, y := Listed(answers)[i].uid, Listed(answers)[j].uid;
              && x in table && y in table
              && (|| table[x].createdAt > table[y].createdAt
                  || (table[x].createdAt == table[y].createdAt && env.uidLess(y, x)))
  {
    NewerFirstIsTotal(env);
    MessageWalkAtRest(env, table, conversation, limit, answers);
    var listed, keys := Listed(answers), ShownKeys(table, conversation);
    forall i | 0 <= i < |listed| ensures listed[i] in keys {
      assert listed[i] in listed;
    }
    forall u | u in table && table[u].conversation == conversation && !table[u].deleted
      ensures exists i :: 0 <= i < |listed| && listed[i].uid == u
    {
      assert KeyIn(table, u) in keys;
      assert KeyIn(table, u) in listed;
    }
    forall i, j | 0 <= i < j < |listed| ensures NewerFirst(env)(listed[i], listed[j]) {
    }
  }

  ghost function StaticAnswers(env: Env, pages: seq<Page<Token>>): seq<Response> {
    seq(|pages|, i requires 0 <= i < |pages| => PageResponse(env, pages[i]))
  }

  lemma StaticAnswersTail(env: Env, pages: seq<Page<Token>>)
    requires pages != []
    ensures StaticAnswers(env, pages)[0] == PageResponse(env, pages[0])
    ensures StaticAnswers(env, pages)[1..] == StaticAnswers(env, pages[1..])
  {
  }

  /** A cursor that cannot be decoded is refused, and nothing else is. */
  lemma BadCursorIsRefused(env: Env, table: Table, conversation: string, cursor: string, limit: nat)
    requires EnvOk(env) && limit >= 1
    ensures ListMessages(env, table, conversation, None, limit).Ok?
    ensures var answer := ListMessages(env, table, conversation, Some(cursor), limit);
            && (answer.Err? <==> cursor != "" && env.decodeCursor(cursor).None?)
            && (answer.Err? ==> answer == Err(ValidationError))
  {
  }

  /** A cursor the history issued continues after the message it was issued for. */
  lemma HistoryContinues(env: Env, table: Table, conversation: string, last: Option<Token>, limit: nat)
    requires EnvOk(env) && limit >= 1 && StrictTotal(NewerFirst(env))
    ensures ListMessages(env, table, conversation, CursorAfter(env, last), limit)
         == Ok(PageResponse(env, Fetch(NewerFirst(env), ShownKeys(table, conversation), last, limit)))
  {
  }

  lemma {:induction false} MessageWalkEnds(
    env: Env, table: Table, conversation: string, last: Option<Token>, limit: nat)
    requires EnvOk(env) && limit >= 1 && StrictTotal(NewerFirst(env))
    ensures var answers := StaticAnswers(env, StaticWalk(NewerFirst(env), ShownKeys(table, conversation), last, limit));
            MessageWalk(env, Same(table, |answers|), conversation, CursorAfter(env, last), limit, answers)
    decreases |After(NewerFirst(env), ShownKeys(table, conversation), last)|
  {
    var keys := ShownKeys(table, conversation);
    var pages := StaticWalk(NewerFirst(env), keys, last, limit);
    StaticWalkUnfolds(NewerFirst(env), keys, last, limit);
    StaticAnswersTail(env, pages);
    SameTail(table, |pages|);
    HistoryContinues(env, table, conversation, last, limit);
    if pages[0].hasMore {
      MessageWalkEnds(env, table, conversation, pages[0].next, limit);
    }
  }

  /** Paging through a history at rest: the walk from no cursor ends, every answer but the last
      is full, and the answers joined are exactly the shown messages, newest first. */
  lemma HistoryPagesThrough(env: Env, table: Table, conversation: string, limit: nat) returns (answers: seq<Response>)
    requires EnvOk(env) && limit >= 1
    ensures StrictTotal(NewerFirst(env))
    ensures MessageWalk(env, Same(table, |answers|), conversation, None, limit, answers)
    ensures forall i :: 0 <= i < |answers| - 1 ==> |answers[i].keys| == limit
    ensures Listed(answers) == OrderBy(NewerFirst(env), ShownKeys(table, conversation))
  {
    NewerFirstIsTotal(env);
    var keys := ShownKeys(table, conversation);
    answers := StaticAnswers(env, StaticWalk(NewerFirst(env), keys, None, limit));
    MessageWalkEnds(env, table, conversation, None, limit);
    StaticWalkIsPacked(NewerFirst(env), keys, None, limit);
    MessageWalkAtRest(env, table, conversation, limit, answers);
  }
}
