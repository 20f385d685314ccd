/** The decryption module as it runs: module-level maps that its functions set, evict and delete. */
module MessageDecryption {
  import opened Common
  import opened DecryptionCaches

  class MessageDecryption {
    var sentPlaintextCache: Entries
    var failedDecrypts: map<string, Failure>
    var durable: map<string, Stored>           // the message cache's store
    var storeKey: Option<string>               // the auth store's derived key

    constructor ()
      ensures State() == Start
    {
      sentPlaintextCache, failedDecrypts, durable, storeKey := [], map[], map[], None;
    }

    ghost function State(): Caches
      reads this
    {
      Caches(sentPlaintextCache, failedDecrypts, durable, storeKey)
    }

    /** `forgetDecryptFailure`: the loop deletes exactly the entries of one channel. */
    method ForgetDecryptFailure(channelId: string)
      modifies this`failedDecrypts
      ensures failedDecrypts == Forget(old(failedDecrypts), channelId)
    {
      var ids := failedDecrypts.Keys;
      while ids != {}
        invariant ids <= old(failedDecrypts).Keys
        invariant failedDecrypts == map id | id in old(failedDecrypts)
                    && (id in ids || old(failedDecrypts)[id].channelId != channelId) :: old(failedDecrypts)[id]
        decreases |ids|
      {
        var msgId :| msgId in ids;
        if failedDecrypts[msgId].channelId == channelId {
          failedDecrypts := failedDecrypts - {msgId};
        }
        ids := ids - {msgId};
      }
    }

    method GetCachedMessage(id: string, content: string) returns (cached: Option<string>)
      ensures cached == Cached(State(), id, content)
    {
      if storeKey.None? || id !in durable {
        return None;
      }
      var entry := durable[id];
      if content != "" && entry.source != "" && entry.source != content {
        return None;
      }
      return if storeKey == Some(entry.sealedWith) then Some(entry.plaintext) else None;
    }

    /** False when the write throws, and then nothing was stored. */
    method CacheMessage(id: string, channelId: string, plaintext: string, source: string, w: World)
      returns (stored: bool)
      modifies this`durable
      ensures stored <==> !StoreThrows(old(State()), w)
      ensures State() == if stored then Store(old(State()), id, channelId, plaintext, source) else old(State())
    {
      if storeKey.None? {
        return true;
      }
      if !w.writeOk {
        return false;
      }
      durable := durable[id := Stored(channelId, plaintext, source, storeKey.value)];
      return true;
    }

    /** `tryDecrypt`. */
    method TryDecrypt(id: string, content: string, channelId: string, unlocked: bool, w: World)
      returns (outcome: Outcome)
      modifies this
      ensures var r := Read(old(State()), id, content, channelId, unlocked, w);
              outcome == r.outcome && State() == r.next
    {
      if !w.readOk {
        return Rejected;
      }
      var cached := GetCachedMessage(id, content);
      if cached.Some? {
        return Text(cached.value);
      }
      var sentPlaintext := Get(sentPlaintextCache, content);
      if sentPlaintext.Some? {
        sentPlaintextCache := Remove(sentPlaintextCache, content);
        var stored := CacheMessage(id, channelId, sentPlaintext.value, content, w);
        return if stored then Text(sentPlaintext.value) else Rejected;
      }
      var clean := Clean(content);
      if !unlocked {
        return Text(LOCKED);
      }
      if id in failedDecrypts && failedDecrypts[id].ciphertext == content {
        return Text(PlaceholderFor(clean));
      }
      if w.decrypted.Some? {
        var stored := CacheMessage(id, channelId, w.decrypted.value, content, w);
        if stored {
          failedDecrypts := failedDecrypts - {id};
          return Text(w.decrypted.value);
        }
      }
      failedDecrypts := failedDecrypts[id := Failure(channelId, content)];
      return Text(PlaceholderFor(clean));
    }

    /** `tryEncrypt`; `ciphertext` is what `encryptChannel` returned, if it did. */
    method TryEncrypt(plaintext: string, unlocked: bool, ciphertext: Option<string>) returns (outcome: Outcome)
      modifies this`sentPlaintextCache
      ensures !unlocked || ciphertext.None? ==> outcome == Rejected && unchanged(this)
      ensures unlocked && ciphertext.Some? ==>
                outcome == Text(ciphertext.value) && State() == Next(old(State()), Encrypt(plaintext, ciphertext.value))
    {
      if !unlocked || ciphertext.None? {
        return Rejected;
      }
      sentPlaintextCache := Put(sentPlaintextCache, ciphertext.value, plaintext);
      if |sentPlaintextCache| > MAX_SENT_CACHE {
        var first := sentPlaintextCache[0].0;
        if first != "" {
          sentPlaintextCache := Remove(sentPlaintextCache, first);
        }
      }
      return Text(ciphertext.value);
    }
  }
}
