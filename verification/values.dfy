/** The JSON values, dictionary keys and Python conventions shared by the
    enrichment paths.  An enrichment is a partial map: an absent key leaves a
    field alone, a key bound to `Null` clears it. */
module Values {

  datatype Option<+T> = None | Some(value: T)

  datatype Val = Null | Bool(b: bool) | Num(n: int) | Text(s: string) | List(items: seq<Val>)

  /** Dictionary keys: the ten enrichable LastAlert columns, the two legacy
      dismiss keys, and every other name. */
  datatype Key =
    | Status | StatusDisposable | DismissMode | DismissedUntil | Assignee
    | Note | Deleted | TicketType | TicketUrl | TicketProviderId
    | Dismissed | DismissUntil
    | Other(name: string)

  type Dict = map<Key, Val>

  const SUPPRESSED := Text("suppressed")
  const RESOLVED := Text("resolved")
  const PERMANENT := Text("permanent")
  const DISMISS_UNTIL := Text("dismiss_until")

  const COLUMNS: set<Key> := {Status, StatusDisposable, DismissMode, DismissedUntil, Assignee,
                              Note, Deleted, TicketType, TicketUrl, TicketProviderId}

  /** Every key but the legacy ones and the foreign names. */
  predicate Enrichable(k: Key)
    ensures Enrichable(k) <==> !k.Dismissed? && !k.DismissUntil? && !k.Other?
  {
    k in COLUMNS
  }

  /** Python's truth value of a JSON value. */
  predicate Truthy(v: Val)
    ensures Truthy(v) <==> v != Null && v != Bool(false) && v != Num(0) && v != Text("") && v != List([])
  {
    match v
    case Null => false
    case Bool(b) => b
    case Num(n) => n != 0
    case Text(s) => s != ""
    case List(items) => items != []
  }

  /** `d.get(k)`. */
  function Get(d: Dict, k: Key): Val {
    if k in d then d[k] else Null
  }

  function Kept(d: Dict, k: Key): Option<Val> {
    if k in d then Some(d[k]) else None
  }

  lemma SameDict(a: Dict, b: Dict)
    requires forall k :: Kept(a, k) == Kept(b, k)
    ensures a == b
  {
    forall k ensures k in a <==> k in b { assert Kept(a, k) == Kept(b, k); }
    forall k | k in a ensures a[k] == b[k] { assert Kept(a, k) == Kept(b, k); }
  }

  /** A nullable column as a value that may be missing. */
  function NonNull(v: Val): Option<Val> {
    if v == Null then None else Some(v)
  }

  /** COALESCE(a, b). */
  function Coalesce<T>(a: Option<T>, b: Option<T>): Option<T> {
    if a.Some? then a else b
  }

  function LowerChar(c: char): char {
    if 'A' <= c <= 'Z' then ((c as int) + 32) as char else c
  }

  /** `s.lower()`, as far as comparisons with ASCII texts can tell. */
  function Lower(s: string): string {
    seq(|s|, i requires 0 <= i < |s| => LowerChar(s[i]))
  }

  /** The characters `str.strip` removes. */
  predicate Whitespace(c: char) {
    || '\U{0009}' <= c <= '\U{000D}' || '\U{001C}' <= c <= '\U{0020}'
    || c == '\U{0085}' || c == '\U{00A0}' || c == '\U{1680}' || '\U{2000}' <= c <= '\U{200A}'
    || c == '\U{2028}' || c == '\U{2029}' || c == '\U{202F}' || c == '\U{205F}' || c == '\U{3000}'
  }

  /** A text with nothing left after `strip`. */
  predicate BlankText(v: Val) {
    v.Text? && forall c :: c in v.s ==> Whitespace(c)
  }
}
