/**
 * `SessionMethods.set_session`: a copy of the query with only its session
 * replaced. The copy is made with an update mapping, so no validator runs.
 */
module Session {
  import opened Results
  import opened QueryState

  /**
   * The query with `session` replaced; called without an argument the
   * session becomes `None`. Every other field is carried over.
   */
  function SetSession<M, E, S>(q: Query<M, E, S>, session: Option<S>): (r: Query<M, E, S>)
    ensures r.session == session
    ensures r.(session := q.session) == q
  {
    q.(session := session)
  }

  /** `set_session()` with its default argument clears the session and keeps everything else. */
  lemma SetSessionDefault<M, E, S>(q: Query<M, E, S>)
    ensures SetSession(q, None).session.None?
    ensures SetSession(q, None) == q.(session := None)
  {
  }

  /** Of two consecutive `set_session` calls the later one wins. */
  lemma LastSessionWins<M, E, S>(q: Query<M, E, S>, a: Option<S>, b: Option<S>)
    ensures SetSession(SetSession(q, a), b) == SetSession(q, b)
  {
  }

  /** Restoring the previous session undoes `set_session`. */
  lemma SetSessionUndo<M, E, S>(q: Query<M, E, S>, s: Option<S>)
    ensures SetSession(SetSession(q, s), q.session) == q
  {
  }
}
