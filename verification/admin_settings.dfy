/** The API-key settings page: the key on display, the browser-local slot it
    is kept in (`localStorage['instant_booking_api_key']`), and the load,
    generate, revoke, copy and show/hide actions. The 500 ms simulated
    latency of generate and revoke is collapsed: each action is its start
    state followed by its completion. */
module AdminSettings {
  import opened Wrappers
  import opened HexKey

  datatype MessageKind = Success | Error

  datatype Message = Message(kind: MessageKind, text: string)

  /** The page's React state. */
  datatype Screen = Screen(apiKey: string, showKey: bool, copied: bool, loading: bool, message: Option<Message>)

  /** The page together with the one storage slot it uses. */
  datatype Admin = Admin(screen: Screen, stored: Option<string>)

  const GeneratedText: string := "New API key generated successfully!"
  const RevokedText: string := "API key revoked successfully."

  /** The page as first rendered, before its effect runs. */
  function Mount(stored: Option<string>): Admin {
    Admin(Screen("", false, false, false, None), stored)
  }

  /** The mount effect: a saved key is shown only when it is truthy, that is
      present and non-empty. */
  function Load(a: Admin): (r: Admin)
    ensures r.stored == a.stored
    ensures a.stored.Some? && a.stored.value != "" ==> r.screen.apiKey == a.stored.value
    ensures a.stored.None? || a.stored.value == "" ==> r == a
  {
    if a.stored.Some? && a.stored.value != "" then a.(screen := a.screen.(apiKey := a.stored.value)) else a
  }

  /** The key the page should show for what the slot holds. */
  function StoredOrEmpty(stored: Option<string>): string {
    if stored.Some? then stored.value else ""
  }

  /** The displayed key agrees with storage. */
  predicate Synced(a: Admin) {
    a.screen.apiKey == StoredOrEmpty(a.stored)
  }

  /** After loading, the page shows exactly the stored key, or nothing. */
  lemma LoadSyncs(stored: Option<string>)
    ensures Synced(Load(Mount(stored)))
    ensures Load(Mount(stored)).screen.apiKey != "" <==> stored.Some? && stored.value != ""
  {
  }

  /** `handleGenerateKey`, completed: the key is the encoding of the random
      bytes, shown and stored alike. */
  function GenerateKey(a: Admin, random: RandomBytes): (r: Admin)
    ensures r.stored == Some(r.screen.apiKey)
    ensures r.screen.apiKey == Encode(random) && |r.screen.apiKey| == 64
    ensures !r.screen.loading
    ensures r.screen.message == Some(Message(Success, GeneratedText))
    ensures r.screen.showKey == a.screen.showKey && r.screen.copied == a.screen.copied
  {
    var started := a.(screen := a.screen.(loading := true, message := None));
    var key := Encode(random);
    Admin(started.screen.(apiKey := key, loading := false, message := Some(Message(Success, GeneratedText))), Some(key))
  }

  /** `handleRevoke`, completed; `confirmed` is the answer to `confirm(...)`. */
  function Revoke(a: Admin, confirmed: bool): (r: Admin)
    ensures !confirmed ==> r == a
    ensures confirmed ==> r.screen.apiKey == "" && r.stored == None && !r.screen.loading
    ensures confirmed ==> r.screen.message == Some(Message(Success, RevokedText))
  {
    if !confirmed then a
    else
      var started := a.(screen := a.screen.(loading := true));
      Admin(started.screen.(apiKey := "", loading := false, message := Some(Message(Success, RevokedText))), None)
  }

  /** What `handleCopyKey` does: the text written to the clipboard, if any,
      and the page afterwards. */
  datatype Copy = Copy(clipboard: Option<string>, after: Admin)

  function CopyKey(a: Admin): (r: Copy)
    ensures a.screen.apiKey == "" ==> r == Copy(None, a)
    ensures a.screen.apiKey != "" ==> r.clipboard == Some(a.screen.apiKey) && r.after.screen.copied
    ensures r.after.screen.apiKey == a.screen.apiKey && r.after.stored == a.stored
  {
    if a.screen.apiKey != "" then Copy(Some(a.screen.apiKey), a.(screen := a.screen.(copied := true)))
    else Copy(None, a)
  }

  /** The eye button. */
  function ToggleShowKey(a: Admin): (r: Admin)
    ensures r.screen.showKey != a.screen.showKey
    ensures r.screen.apiKey == a.screen.apiKey && r.stored == a.stored
  {
    a.(screen := a.screen.(showKey := !a.screen.showKey))
  }

  datatype Action = Generate(random: RandomBytes) | RevokeKey(confirmed: bool) | CopyToClipboard | Toggle

  /** One user action; generate carries the bytes the page draws. */
  function Apply(a: Admin, act: Action): Admin {
    match act
    case Generate(random) => GenerateKey(a, random)
    case RevokeKey(confirmed) => Revoke(a, confirmed)
    case CopyToClipboard => CopyKey(a).after
    case Toggle => ToggleShowKey(a)
  }

  function ApplyAll(a: Admin, acts: seq<Action>): Admin
    decreases |acts|
  {
    if acts == [] then a else ApplyAll(Apply(a, acts[0]), acts[1..])
  }

  /** Every action keeps the displayed key in step with storage. */
  lemma ApplySynced(a: Admin, act: Action)
    requires Synced(a)
    ensures Synced(Apply(a, act))
  {
  }

  /** From mount and load on, whatever the user does, the displayed key is
      the stored key (or empty when nothing is stored). */
  lemma {:induction false} SessionStaysSynced(a: Admin, acts: seq<Action>)
    requires Synced(a)
    ensures Synced(ApplyAll(a, acts))
    decreases |acts|
  {
    if acts != [] {
      ApplySynced(a, acts[0]);
      SessionStaysSynced(Apply(a, acts[0]), acts[1..]);
    }
  }

  /** Any session after load keeps the two in step. */
  lemma MountedSessionSynced(stored: Option<string>, acts: seq<Action>)
    ensures Synced(ApplyAll(Load(Mount(stored)), acts))
  {
    LoadSyncs(stored);
    SessionStaysSynced(Load(Mount(stored)), acts);
  }
}
