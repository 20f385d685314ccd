/** The three caches in front of decryption: the bounded FIFO map of sent plaintext, the memo of failed
    decryptions, and the durable message cache. One call is one atomic step. */
module DecryptionCaches {
  import opened Common

  const DEV_PREFIX: string := "[DEV: unencrypted] "
  const MAX_SENT_CACHE: nat := 200
  const LOCKED: string := "\U{1F512} *Encrypted message \U{2014} unlock your identity to read*"
  const UNABLE: string := "\U{1F512} *Unable to decrypt \U{2014} encrypted with a previous session key*"

  // ---------- A Map with insertion order ----------

  type Entries = seq<(string, string)>

  predicate Has(m: Entries, key: string) {
    exists i :: 0 <= i < |m| && m[i].0 == key
  }

  function IndexOf(m: Entries, key: string): (i: nat)
    requires Has(m, key)
    ensures i < |m| && m[i].0 == key
  {
    if m[0].0 == key then 0 else 1 + IndexOf(m[1..], key)
  }

  function Get(m: Entries, key: string): Option<string> {
    if Has(m, key) then Some(m[IndexOf(m, key)].1) else None
  }

  /** `Map.set`: an existing key keeps its place. */
  function Put(m: Entries, key: string, value: string): Entries {
    if Has(m, key) then m[IndexOf(m, key) := (key, value)] else m + [(key, value)]
  }

  /** `Map.delete`. */
  function Remove(m: Entries, key: string): Entries {
    if Has(m, key) then m[..IndexOf(m, key)] + m[IndexOf(m, key) + 1..] else m
  }

  predicate UniqueKeys(m: Entries) {
    forall i, j :: 0 <= i < j < |m| ==> m[i].0 != m[j].0
  }

  // ---------- State ----------

  datatype Failure = Failure(channelId: string, ciphertext: string)

  /** `source` stands for its hash; an empty one was not recorded. `sealedWith` is the cache key. */
  datatype Stored = Stored(channelId: string, plaintext: string, source: string, sealedWith: string)

  datatype Caches = Caches(
    sent: Entries,
    failed: map<string, Failure>,
    durable: map<string, Stored>,
    storeKey: Option<string>)

  /** What the outside world does during one call: cache reads and writes may throw, and
      `decryptChannel` either throws or returns a plaintext. */
  datatype World = World(readOk: bool, writeOk: bool, decrypted: Option<string>)

  datatype Outcome = Text(text: string) | Rejected

  /** `getCachedMessage`. */
  function Cached(c: Caches, id: string, content: string): Option<string> {
    if c.storeKey.None? || id !in c.durable then None
    else
      var e := c.durable[id];
      if content != "" && e.source != "" && e.source != content then None
      else if Some(e.sealedWith) != c.storeKey then None
      else Some(e.plaintext)
  }

  /** `cacheMessage`, when its write goes through. */
  function Store(c: Caches, id: string, channelId: string, plaintext: string, source: string): Caches {
    if c.storeKey.None? then c
    else c.(durable := c.durable[id := Stored(channelId, plaintext, source, c.storeKey.value)])
  }

  /** Only with a cache key is anything written that could fail. */
  predicate StoreThrows(c: Caches, w: World) {
    c.storeKey.Some? && !w.writeOk
  }

  function Clean(content: string): string {
    if DEV_PREFIX <= content then content[|DEV_PREFIX|..] else content
  }

  predicate IsSpace(ch: char) {
    ch in " \t\n\r" || ch in "\U{000B}\U{000C}\U{00A0}\U{FEFF}\U{1680}\U{2028}\U{2029}\U{202F}\U{205F}\U{3000}"
    || '\U{2000}' <= ch <= '\U{200A}'
  }

  predicate IsBase64Char(ch: char) {
    'A' <= ch <= 'Z' || 'a' <= ch <= 'z' || '0' <= ch <= '9' || ch in "+/="
  }

  /** More than 80 characters, all of them base64 or white space, and not only white space. */
  predicate LooksEncrypted(clean: string) {
    && |clean| > 80
    && (forall i :: 0 <= i < |clean| ==> IsBase64Char(clean[i]) || IsSpace(clean[i]))
    && (exists i :: 0 <= i < |clean| && !IsSpace(clean[i]))
  }

  function PlaceholderFor(clean: string): string {
    if LooksEncrypted(clean) then UNABLE else clean
  }

  datatype ReadResult = ReadResult(outcome: Outcome, attempted: bool, next: Caches)

  /** `tryDecrypt`; `attempted` tells whether `decryptChannel` was called. */
  function Read(c: Caches, id: string, content: string, channelId: string, unlocked: bool, w: World): ReadResult {
    if !w.readOk then ReadResult(Rejected, false, c)
    else if Cached(c, id, content).Some? then ReadResult(Text(Cached(c, id, content).value), false, c)
    else if Has(c.sent, content) then
      var plaintext := Get(c.sent, content).value;
      var taken := c.(sent := Remove(c.sent, content));
      if StoreThrows(c, w) then ReadResult(Rejected, false, taken)
      else ReadResult(Text(plaintext), false, Store(taken, id, channelId, plaintext, content))
    else if !unlocked then ReadResult(Text(LOCKED), false, c)
    else if id in c.failed && c.failed[id].ciphertext == content then
      ReadResult(Text(PlaceholderFor(Clean(content))), false, c)
    else if w.decrypted.Some? && !StoreThrows(c, w) then
      var stored := Store(c, id, channelId, w.decrypted.value, content);
      ReadResult(Text(w.decrypted.value), true, stored.(failed := stored.failed - {id}))
    else
      ReadResult(Text(PlaceholderFor(Clean(content))), true, c.(failed := c.failed[id := Failure(channelId, content)]))
  }

  /** The tail of `tryEncrypt`: remember, then evict the oldest key when over the limit. An empty
      oldest key is falsy and stays. */
  function Remember(sent: Entries, ciphertext: string, plaintext: string): Entries {
    var more := Put(sent, ciphertext, plaintext);
    if |more| > MAX_SENT_CACHE && more[0].0 != "" then Remove(more, more[0].0) else more
  }

  /** `forgetDecryptFailure`. */
  function Forget(failed: map<string, Failure>, channelId: string): map<string, Failure> {
    map id | id in failed && failed[id].channelId != channelId :: failed[id]
  }

  datatype Event =
    | Encrypt(plaintext: string, ciphertext: string)
    | Decrypt(id: string, content: string, channelId: string, unlocked: bool, w: World)
    | KeyArrived(channelId: string)
    | DropCached(id: string)
    | SetStoreKey(key: Option<string>)

  function Next(c: Caches, e: Event): Caches {
    match e
    case Encrypt(plaintext, ciphertext) => c.(sent := Remember(c.sent, ciphertext, plaintext))
    case Decrypt(id, content, channelId, unlocked, w) => Read(c, id, content, channelId, unlocked, w).next
    case KeyArrived(channelId) => c.(failed := Forget(c.failed, channelId))
    case DropCached(id) => c.(durable := c.durable - {id})
    case SetStoreKey(key) => c.(storeKey := key)
  }

  function After(c: Caches, events: seq<Event>): Caches
    decreases |events|
  {
    if events == [] then c else After(Next(c, events[0]), events[1..])
  }

  // ---------- Agreement with the truth ----------

  /** `truth` says which plaintext each ciphertext was made from; decryption never lies about it. */
  predicate Honest(truth: map<string, string>, e: Event) {
    && (e.Encrypt? ==> e.ciphertext in truth && truth[e.ciphertext] == e.plaintext)
    && (e.Decrypt? && e.w.decrypted.Some? ==> e.content in truth && truth[e.content] == e.w.decrypted.value)
  }

  predicate AllHonest(truth: map<string, string>, events: seq<Event>) {
    forall i :: 0 <= i < |events| ==> Honest(truth, events[i])
  }

  ghost predicate TrueEntries(truth: map<string, string>, m: Entries) {
    forall i :: 0 <= i < |m| ==> m[i].0 in truth && truth[m[i].0] == m[i].1
  }

  ghost predicate Truthful(truth: map<string, string>, c: Caches) {
    && TrueEntries(truth, c.sent)
    && (forall id :: id in c.durable ==>
         c.durable[id].source in truth && truth[c.durable[id].source] == c.durable[id].plaintext)
  }

  predicate RightAnswer(truth: map<string, string>, content: string, outcome: Outcome) {
    || outcome.Rejected?
    || (content in truth && outcome.text == truth[content])
    || outcome.text == LOCKED
    || outcome.text == PlaceholderFor(Clean(content))
  }

  lemma RemoveTrue(truth: map<string, string>, m: Entries, key: string)
    requires TrueEntries(truth, m)
    ensures TrueEntries(truth, Remove(m, key))
    ensures Has(m, key) ==> key in truth && Get(m, key) == Some(truth[key])
  {
  }

  lemma RememberTrue(truth: map<string, string>, m: Entries, key: string)
    requires TrueEntries(truth, m) && key in truth
    ensures TrueEntries(truth, Remember(m, key, truth[key]))
  {
    var more := Put(m, key, truth[key]);
    RemoveTrue(truth, more, more[0].0);
  }

  lemma ReadTrue(truth: map<string, string>, c: Caches, e: Event)
    requires "" !in truth && Truthful(truth, c) && Honest(truth, e) && e.Decrypt?
    ensures Truthful(truth, Next(c, e))
    ensures e.content != "" ==>
              RightAnswer(truth, e.content, Read(c, e.id, e.content, e.channelId, e.unlocked, e.w).outcome)
  {
    RemoveTrue(truth, c.sent, e.content);
  }

  lemma TruthfulStep(truth: map<string, string>, c: Caches, e: Event)
    requires "" !in truth && Truthful(truth, c) && Honest(truth, e)
    ensures Truthful(truth, Next(c, e))
  {
    if e.Encrypt? {
      RememberTrue(truth, c.sent, e.ciphertext);
    } else if e.Decrypt? {
      ReadTrue(truth, c, e);
    }
  }

  lemma {:induction false} TruthfulRun(truth: map<string, string>, c: Caches, events: seq<Event>)
    requires "" !in truth && Truthful(truth, c) && AllHonest(truth, events)
    ensures Truthful(truth, After(c, events))
    decreases |events|
  {
    if events != [] {
      TruthfulStep(truth, c, events[0]);
      TruthfulRun(truth, Next(c, events[0]), events[1..]);
    }
  }

  const Start := Caches([], map[], map[], None)

  /** In every run, reading a message gives the plaintext its ciphertext was made from, or the lock
      text, or the wire text's placeholder; never another message's or an older version's text. */
  lemma AnswersAreTrue(truth: map<string, string>, events: seq<Event>, e: Event)
    requires "" !in truth && AllHonest(truth, events) && Honest(truth, e) && e.Decrypt? && e.content != ""
    ensures RightAnswer(truth, e.content,
              Read(After(Start, events), e.id, e.content, e.channelId, e.unlocked, e.w).outcome)
  {
    TruthfulRun(truth, Start, events);
    ReadTrue(truth, After(Start, events), e);
  }

  /** An empty wire text is the exception, as the durable cache then skips its source test: the answer
      is right exactly if the message has no readable entry there, or one that reads like an answer. */
  lemma EmptyContentExactly(truth: map<string, string>, events: seq<Event>, e: Event)
    requires "" !in truth && AllHonest(truth, events) && Honest(truth, e) && e.Decrypt? && e.content == ""
    ensures var c := After(Start, events);
            var cached := Cached(c, e.id, "");
            RightAnswer(truth, "", Read(c, e.id, "", e.channelId, e.unlocked, e.w).outcome)
            <==> !e.w.readOk || cached.None? || cached.value == LOCKED || cached.value == ""
  {
    TruthfulRun(truth, Start, events);
    RemoveTrue(truth, After(Start, events).sent, "");
    assert PlaceholderFor(Clean("")) == "";
  }

  lemma EmptyContentExample()
    ensures var c := After(Start, [SetStoreKey(Some("k")), Encrypt("old", "c"),
                                   Decrypt("m", "c", "ch", true, World(true, true, None))]);
            Read(c, "m", "", "ch", true, World(true, true, None)).outcome == Text("old")
  {
    var es := [SetStoreKey(Some("k")), Encrypt("old", "c"), Decrypt("m", "c", "ch", true, World(true, true, None))];
    var c1 := Next(Start, es[0]);
    var c2 := Next(c1, es[1]);
    assert c2.sent == [("c", "old")];
    assert c2.sent[0].0 == "c";
    assert Has(c2.sent, "c");
    var c3 := Next(c2, es[2]);
    assert es[1..][1..] == [es[2]] && [es[2]][1..] == [];
    assert After(c2, [es[2]]) == c3;
    assert After(c1, es[1..]) == c3;
  }

  // ---------- The failure memo ----------

  /** Between key arrivals for its channel a failed (message, ciphertext) pair is not tried again,
      however often it is read and whatever else happens to other messages and channels. */
  lemma {:induction false} FailedOnlyOnce(c: Caches, events: seq<Event>, id: string, content: string, channelId: string)
    requires id in c.failed && c.failed[id] == Failure(channelId, content)
    requires forall i :: 0 <= i < |events| ==>
               && !(events[i].KeyArrived? && events[i].channelId == channelId)
               && !(events[i].Decrypt? && events[i].id == id && events[i].content != content)
    ensures var c' := After(c, events);
            && id in c'.failed && c'.failed[id] == Failure(channelId, content)
            && forall ch, unlocked, w :: !Read(c', id, content, ch, unlocked, w).attempted
    decreases |events|
  {
    if events != [] {
      assert !(events[0].KeyArrived? && events[0].channelId == channelId);
      FailedOnlyOnce(Next(c, events[0]), events[1..], id, content, channelId);
    }
  }

  /** A failing attempt is what puts the pair in the memo. */
  lemma FailureIsRecorded(c: Caches, id: string, content: string, channelId: string, w: World)
    requires Read(c, id, content, channelId, true, w).attempted && (w.decrypted.None? || StoreThrows(c, w))
    ensures var c' := Read(c, id, content, channelId, true, w).next;
            id in c'.failed && c'.failed[id] == Failure(channelId, content)
            && c'.failed - {id} == c.failed - {id}
  {
  }

  /** An unlocked reader tries exactly when neither cache answers and the memo does not hold this very
      ciphertext; so a key for the channel, or an edit, brings the attempt back. */
  lemma AttemptedExactly(c: Caches, id: string, content: string, ch: string, w: World)
    requires w.readOk && Cached(c, id, content).None? && !Has(c.sent, content)
    ensures Read(c, id, content, ch, true, w).attempted
       <==> !(id in c.failed && c.failed[id].ciphertext == content)
    ensures id in c.failed && c.failed[id].channelId == ch ==>
              Read(Next(c, KeyArrived(ch)), id, content, ch, true, w).attempted
  {
  }

  // ---------- Exactly what a read answers ----------

  /** The state after an honest run, before an honest read. */
  ghost predicate Before(truth: map<string, string>, events: seq<Event>, e: Event, c: Caches) {
    && "" !in truth && AllHonest(truth, events) && Honest(truth, e) && e.Decrypt? && e.content != "" && e.w.readOk
    && c == After(Start, events)
  }

  predicate InMemo(c: Caches, e: Event)
    requires e.Decrypt?
  {
    e.id in c.failed && c.failed[e.id].ciphertext == e.content
  }

  /** Every cache write of this read goes through. */
  predicate Writes(c: Caches, e: Event)
    requires e.Decrypt?
  {
    c.storeKey.None? || e.w.writeOk
  }

  /** From the durable cache: the true text, and nothing changes. */
  lemma CachedRead(truth: map<string, string>, events: seq<Event>, e: Event, c: Caches)
    requires Before(truth, events, e, c) && Cached(c, e.id, e.content).Some?
    ensures e.content in truth
    ensures Read(c, e.id, e.content, e.channelId, e.unlocked, e.w) == ReadResult(Text(truth[e.content]), false, c)
  {
    TruthfulRun(truth, Start, events);
  }

  /** From the sent cache, the first echo of an own message: the entry is taken, locked or not, and if
      the durable write goes through the true text is answered and kept. */
  lemma SentRead(truth: map<string, string>, events: seq<Event>, e: Event, c: Caches)
    requires Before(truth, events, e, c) && Cached(c, e.id, e.content).None? && Has(c.sent, e.content)
    ensures e.content in truth
    ensures var r := Read(c, e.id, e.content, e.channelId, e.unlocked, e.w);
            && !r.attempted && r.next.sent == Remove(c.sent, e.content) && r.next.failed == c.failed
            && (Writes(c, e) ==> r.outcome == Text(truth[e.content]))
            && (Writes(c, e) && c.storeKey.Some? ==> Cached(r.next, e.id, e.content) == Some(truth[e.content]))
            && (!Writes(c, e) ==> r.outcome == Rejected && r.next.durable == c.durable)
  {
    TruthfulRun(truth, Start, events);
    RemoveTrue(truth, c.sent, e.content);
  }

  /** Past both caches and locked: the lock text, and nothing changes. */
  lemma LockedRead(c: Caches, e: Event)
    requires e.Decrypt? && e.w.readOk && Cached(c, e.id, e.content).None? && !Has(c.sent, e.content) && !e.unlocked
    ensures Read(c, e.id, e.content, e.channelId, e.unlocked, e.w)
         == ReadResult(Text("\U{1F512} *Encrypted message \U{2014} unlock your identity to read*"), false, c)
  {
  }

  /** Past both caches, unlocked, not in the memo, and decryption succeeds: the true text is answered,
      the failure on record for the message is dropped, and the text is readable from then on. */
  lemma DecryptedRead(truth: map<string, string>, events: seq<Event>, e: Event, c: Caches)
    requires Before(truth, events, e, c) && Cached(c, e.id, e.content).None? && !Has(c.sent, e.content)
    requires e.unlocked && !InMemo(c, e) && e.w.decrypted.Some? && Writes(c, e)
    ensures e.content in truth
    ensures var r := Read(c, e.id, e.content, e.channelId, e.unlocked, e.w);
            && r.outcome == Text(truth[e.content]) && r.attempted
            && r.next.sent == c.sent && r.next.failed == c.failed - {e.id}
            && (c.storeKey.Some? ==> Cached(r.next, e.id, e.content) == Some(truth[e.content]))
  {
  }

  /** Past both caches, unlocked, and in the memo or failing: the wire text's placeholder. A failing
      attempt is remembered, and nothing else changes. */
  lemma FailedRead(c: Caches, e: Event)
    requires e.Decrypt? && e.w.readOk && Cached(c, e.id, e.content).None? && !Has(c.sent, e.content) && e.unlocked
    requires InMemo(c, e) || e.w.decrypted.None? || !Writes(c, e)
    ensures var r := Read(c, e.id, e.content, e.channelId, e.unlocked, e.w);
            && r.outcome == Text(PlaceholderFor(Clean(e.content))) && r.attempted == !InMemo(c, e)
            && r.next == if InMemo(c, e) then c else c.(failed := c.failed[e.id := Failure(e.channelId, e.content)])
  {
  }

  /** A cache read that throws makes the call throw, and nothing changes. */
  lemma ThrowingRead(c: Caches, e: Event)
    requires e.Decrypt? && !e.w.readOk
    ensures Read(c, e.id, e.content, e.channelId, e.unlocked, e.w) == ReadResult(Rejected, false, c)
  {
  }

  /** A printable ASCII character of `[A-Za-z0-9+/=]`. */
  predicate InAlphabet(ch: char) {
    65 <= ch as int <= 90 || 97 <= ch as int <= 122 || 47 <= ch as int <= 57 || ch as int in {43, 61}
  }

  /** A text of at most 80 characters, and one with a printable ASCII character that no ciphertext has,
      stands for itself; a longer one of cipher characters, blanks and line breaks, not all blank, is
      replaced. */
  lemma PlaceholderExactly(clean: string)
    ensures |clean| <= 80 ==> PlaceholderFor(clean) == clean
    ensures (exists i :: 0 <= i < |clean| && 33 <= clean[i] as int <= 126 && !InAlphabet(clean[i])) ==>
              PlaceholderFor(clean) == clean
    ensures |clean| > 80 && (forall i :: 0 <= i < |clean| ==> InAlphabet(clean[i]) || clean[i] in " \t\n\r")
            && (exists i :: 0 <= i < |clean| && InAlphabet(clean[i]))
            ==> PlaceholderFor(clean) == "\U{1F512} *Unable to decrypt \U{2014} encrypted with a previous session key*"
  {
    forall i | 0 <= i < |clean|
      ensures InAlphabet(clean[i]) <==> IsBase64Char(clean[i])
      ensures 33 <= clean[i] as int <= 126 ==> !IsSpace(clean[i])
    {
      SameAlphabet(clean[i]);
      if 33 <= clean[i] as int <= 126 { PrintableIsNoSpace(clean[i]); }
    }
  }

  lemma SameAlphabet(ch: char)
    ensures InAlphabet(ch) <==> IsBase64Char(ch)
    ensures InAlphabet(ch) ==> 33 <= ch as int <= 126
  {
  }

  lemma PrintableIsNoSpace(ch: char)
    requires 33 <= ch as int <= 126
    ensures !IsSpace(ch)
  {
  }

  /** The development prefix, and it alone, is taken off the wire text. */
  lemma CleanExactly(text: string)
    ensures Clean("[DEV: unencrypted] " + text) == text
    ensures !("[DEV: unencrypted] " <= text) ==> Clean(text) == text
  {
    assert ("[DEV: unencrypted] " + text)[|DEV_PREFIX|..] == text;
  }

  /** A stored text is readable exactly under the cache key it was stored with, and for the wire text it
      was made from; a dropped one not at all. */
  lemma StoredReadableExactly(c: Caches, id: string, channelId: string, plaintext: string, source: string,
                              key: Option<string>, content: string)
    requires c.storeKey.Some? && source != "" && content != ""
    ensures var kept := Next(Store(c, id, channelId, plaintext, source), SetStoreKey(key));
            && Cached(kept, id, content) == (if key == c.storeKey && content == source then Some(plaintext) else None)
            && Cached(Next(kept, DropCached(id)), id, content).None?
            && forall other :: other != id ==>
                 Cached(Next(kept, DropCached(id)), other, content) == Cached(Next(c, SetStoreKey(key)), other, content)
  {
  }
}
