/**
 * The license gate: the key and its expiry date live in two files; a saved
 * key expires at the start of the day that lies 90 days after activation.
 * Time is local wall-clock time in whole seconds; the expiry file holds a
 * date (written and read back as YYYY-MM-DD), modelled as a day number.
 */
module License {
  import opened Text

  const SecondsPerDay: int := 86400
  const KeyLifetimeDays: int := 90

  /** The two files: the key file's raw contents and the date in the expiry
      file, each absent until first written. */
  datatype Storage = Storage(keyFile: Option<string>, expiryFile: Option<int>)

  /** The calendar day containing time t (floor division). */
  function DayOf(t: int): int
  {
    t / SecondsPerDay
  }

  /** The first second of a day: what parsing a date-only string yields. */
  function Midnight(day: int): int
  {
    day * SecondsPerDay
  }

  /** `save_api_key`: overwrites the key file with the key exactly as given
      and the expiry file with the date 90 days from now. The expiry, once
      read back, falls within the last day of the 90. */
  function SaveApiKey(key: string, now: int): (r: Storage)
    ensures r.keyFile == Some(key)
    ensures r.expiryFile.Some?
    ensures now + (KeyLifetimeDays - 1) * SecondsPerDay < Midnight(r.expiryFile.value)
    ensures Midnight(r.expiryFile.value) <= now + KeyLifetimeDays * SecondsPerDay
  {
    Storage(Some(key), Some(DayOf(now + KeyLifetimeDays * SecondsPerDay)))
  }

  /** `load_api_key`: the key file's contents with surrounding whitespace
      removed, or nothing when the file does not exist. */
  function LoadApiKey(store: Storage): (r: Option<string>)
    ensures r.Some? <==> store.keyFile.Some?
    ensures r.Some? ==> r.value == Strip(store.keyFile.value)
    ensures r.Some? ==> Trimmed(r.value) && |r.value| <= |store.keyFile.value|
  {
    match store.keyFile
    case None => None
    case Some(contents) => Some(Strip(contents))
  }

  /** `load_key_expiration`: midnight of the stored date, or nothing when the
      file does not exist. */
  function LoadKeyExpiration(store: Storage): (r: Option<int>)
    ensures r.Some? <==> store.expiryFile.Some?
    ensures r.Some? ==> DayOf(r.value) == store.expiryFile.value
    ensures r.Some? ==> r.value % SecondsPerDay == 0
  {
    match store.expiryFile
    case None => None
    case Some(day) => Some(Midnight(day))
  }

  datatype Status =
    | NeedsActivation      // no key, or a key that is blank after stripping
    | Expired              // a key whose stored expiry lies in the past
    | Valid(key: string)   // the stripped key, handed on as the credential

  /** The gate as the application evaluates it on each run: a missing or
      blank key asks for activation; a key with a stored expiry strictly
      before now is expired; any other key, including one without an expiry,
      is valid. */
  function CheckLicense(store: Storage, now: int): (r: Status)
    ensures r == NeedsActivation <==> (store.keyFile.None? || AllSpace(store.keyFile.value))
    ensures r.Expired? <==> (store.keyFile.Some? && !AllSpace(store.keyFile.value)
                             && store.expiryFile.Some? && now > Midnight(store.expiryFile.value))
    ensures r.Valid? ==> Some(r.key) == LoadApiKey(store) && r.key != [] && Trimmed(r.key)
  {
    var key := LoadApiKey(store);
    var expiry := LoadKeyExpiration(store);
    assert key.Some? ==> (key.value == [] <==> AllSpace(store.keyFile.value)) by {
      if key.Some? {
        StripEmptyIff(store.keyFile.value);
      }
    }
    if !Truthy(key) then NeedsActivation
    else if expiry.Some? && now > expiry.value then Expired
    else Valid(key.value)
  }

  /** A key activated at time T, non-blank after stripping, is valid from T
      through the 89th day and expired strictly after T + 90 days. */
  lemma ActivatedKeyLifetime(key: string, activatedAt: int, now: int)
    requires !AllSpace(key)
    requires activatedAt <= now
    ensures (now <= activatedAt + (KeyLifetimeDays - 1) * SecondsPerDay)
            ==> CheckLicense(SaveApiKey(key, activatedAt), now) == Valid(Strip(key))
    ensures (now > activatedAt + KeyLifetimeDays * SecondsPerDay)
            ==> CheckLicense(SaveApiKey(key, activatedAt), now) == Expired
  {
  }

  /** The exact boundary: the key is valid up to and including midnight of
      the stored date and expired from the next second on. */
  lemma ExpiryBoundary(key: string, activatedAt: int, now: int)
    requires !AllSpace(key)
    ensures var expiry := Midnight(DayOf(activatedAt + KeyLifetimeDays * SecondsPerDay));
            (CheckLicense(SaveApiKey(key, activatedAt), now).Valid? <==> now <= expiry)
            && (CheckLicense(SaveApiKey(key, activatedAt), now).Expired? <==> now > expiry)
  {
  }

  /** Because the expiry is truncated to a date, a key activated one second
      after midnight is already expired exactly 90 days later. */
  lemma ExpiryTruncationShortensLifetime()
    ensures CheckLicense(SaveApiKey("k", 1), 1 + KeyLifetimeDays * SecondsPerDay) == Expired
  {
    assert !AllSpace("k") by {
      assert !IsSpace("k"[0]);
    }
    assert DayOf(1 + KeyLifetimeDays * SecondsPerDay) == KeyLifetimeDays;
    assert Midnight(KeyLifetimeDays) < 1 + KeyLifetimeDays * SecondsPerDay;
  }

  /** Activating with a key that is blank after stripping leaves the gate
      asking for activation on every later run. */
  lemma BlankKeyNeedsActivation(key: string, activatedAt: int, now: int)
    requires AllSpace(key)
    ensures CheckLicense(SaveApiKey(key, activatedAt), now) == NeedsActivation
  {
  }

  /** A present key with no expiry file never expires. */
  lemma MissingExpiryIsValid(store: Storage, now: int)
    requires store.keyFile.Some? && !AllSpace(store.keyFile.value)
    requires store.expiryFile.None?
    ensures CheckLicense(store, now) == Valid(Strip(store.keyFile.value))
  {
  }

  /** Once expired, a stored key stays expired as time moves forward. */
  lemma ExpiryIsPermanent(store: Storage, now: int, later: int)
    requires CheckLicense(store, now).Expired?
    requires now <= later
    ensures CheckLicense(store, later).Expired?
  {
  }
}
