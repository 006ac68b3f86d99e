/** The process-local stores: pending OPAQUE logins and pending WebAuthn ceremonies. */
module OneTimeMemory {
  import opened Common
  import opened OneTime

  const HANDLE_ATTEMPTS: nat := 4
  const MAX_IN_MEMORY_ENTRIES: nat := 100_000
  const MAX_MESSAGE_BYTES: nat := 16 * 1024
  const CIPHER_SUITE_ID_BYTES: nat := 51
  const MAX_STORED_STATE_BYTES: nat := MAX_MESSAGE_BYTES + 6 + CIPHER_SUITE_ID_BYTES
  const MAX_IDENTIFIER_BYTES: nat := 256
  const MAX_CEREMONY_STATE_BYTES: nat := 128 * 1024
  const MAX_PENDING_CEREMONIES: nat := 100_000

  /** 32 random bytes. */
  type Handle = h: seq<byte> | |h| == 32 witness seq(32, _ => 0)

  type UserId = u: seq<byte> | |u| == 16 witness seq(16, _ => 0)

  datatype StoreError =
    | InvalidCapacity | InvalidTtl | CapacityReached | StateTooLarge | InvalidIdentifier
    | StateTypeMismatch | Unavailable | HandleCollision

  datatype BoundLoginState = BoundLoginState(state: seq<byte>, client: seq<byte>, server: seq<byte>) {
    /** What the checked constructor accepts. */
    predicate Valid() {
      ValidIdentifier(client) && ValidIdentifier(server)
    }
  }

  predicate ValidIdentifier(identifier: seq<byte>) {
    1 <= |identifier| <= MAX_IDENTIFIER_BYTES
  }

  function NewBoundLoginState(state: seq<byte>, client: seq<byte>, server: seq<byte>)
    : (r: Result<BoundLoginState, StoreError>)
    ensures r.Success? <==> ValidIdentifier(client) && ValidIdentifier(server)
    ensures r.Failure? ==> r.error == InvalidIdentifier
    ensures r.Success? ==> r.value.Valid() && r.value == BoundLoginState(state, client, server)
  {
    if !ValidIdentifier(client) || !ValidIdentifier(server) then Failure(InvalidIdentifier)
    else Success(BoundLoginState(state, client, server))
  }

  datatype StateType = UnboundType | BoundType

  datatype StoredState = Unbound(bytes: seq<byte>) | Bound(bound: BoundLoginState) {
    function Type(): StateType {
      if Unbound? then UnboundType else BoundType
    }

    function Size(): nat {
      if Unbound? then |bytes| else |bound.state|
    }
  }

  datatype Entry = Entry(expiresAt: int, state: StoredState)

  type LoginPending = Pending<Handle, StateType, StoredState>

  function LoginView(entries: map<Handle, Entry>): LoginPending {
    map h | h in entries :: Record(entries[h].state.Type(), entries[h].state, entries[h].expiresAt)
  }

  function StoreAnswer(reply: Reply<Handle, StoredState>): Result<Handle, StoreError> {
    match reply
    case Inserted(h) => Success(h)
    case CapacityReached => Failure(StoreError.CapacityReached)
    case _ => Failure(StoreError.HandleCollision)
  }

  lemma FirstVacantAfter<K, T, V>(pending: Pending<K, T, V>, handles: seq<K>, i: nat)
    requires i <= |handles|
    requires forall j :: 0 <= j < i ==> handles[j] in pending
    ensures i == |handles| ==> FirstVacant(pending, handles) == None
    ensures i < |handles| && handles[i] !in pending ==> FirstVacant(pending, handles) == Some(handles[i])
  {
    if 0 < i {
      FirstVacantAfter(pending, handles[1..], i - 1);
    }
  }

  class InMemoryOneTimeLoginStore {
    var entries: map<Handle, Entry>
    const maxEntries: nat
    const ttl: nat

    constructor (maxEntries: nat, ttl: nat)
      ensures entries == map[] && this.maxEntries == maxEntries && this.ttl == ttl
    {
      this.entries := map[];
      this.maxEntries := maxEntries;
      this.ttl := ttl;
    }

    method PurgeExpired(now: int)
      modifies this
      ensures LoginView(entries) == Purge(old(LoginView(entries)), now)
    {
      entries := map h | h in entries && entries[h].expiresAt > now :: entries[h];
    }

    method Put(handle: Handle, entry: Entry)
      modifies this
      ensures LoginView(entries)
              == old(LoginView(entries))[handle := Record(entry.state.Type(), entry.state, entry.expiresAt)]
    {
      entries := entries[handle := entry];
    }

    /** `handles` are the random draws of this call. */
    method InsertStored(state: StoredState, now: int, handles: seq<Handle>) returns (r: Result<Handle, StoreError>)
      requires |handles| == HANDLE_ATTEMPTS
      modifies this
      ensures state.Size() > MAX_STORED_STATE_BYTES ==> r == Failure(StateTooLarge) && entries == old(entries)
      ensures state.Size() <= MAX_STORED_STATE_BYTES ==>
                var o := Step(maxEntries, old(LoginView(entries)), Insert(now, handles, state.Type(), state, ttl));
                LoginView(entries) == o.pending && r == StoreAnswer(o.reply)
    {
      if state.Size() > MAX_STORED_STATE_BYTES {
        return Failure(StateTooLarge);
      }
      var expiresAt := now + ttl;
      PurgeExpired(now);
      SameSize(LoginView(entries), entries);
      if |entries| >= maxEntries {
        return Failure(StoreError.CapacityReached);
      }
      ghost var kept := LoginView(entries);
      for i := 0 to HANDLE_ATTEMPTS
        invariant LoginView(entries) == kept
        invariant forall j :: 0 <= j < i ==> handles[j] in kept
      {
        FirstVacantAfter(kept, handles, i);
        if handles[i] !in entries {
          Put(handles[i], Entry(expiresAt, state));
          return Success(handles[i]);
        }
      }
      FirstVacantAfter(kept, handles, HANDLE_ATTEMPTS);
      return Failure(StoreError.HandleCollision);
    }

    method Remove(handle: Handle)
      modifies this
      ensures LoginView(entries) == old(LoginView(entries)) - {handle}
    {
      entries := entries - {handle};
    }

    method TakeBound(handle: Handle, now: int) returns (r: Result<Option<BoundLoginState>, StoreError>)
      modifies this
      ensures var o := Step(maxEntries, old(LoginView(entries)), Take(now, handle, BoundType));
              && LoginView(entries) == o.pending
              && r == match o.reply {
                        case Taken(state) => if state.Bound? then Success(Some(state.bound)) else Failure(Unavailable)
                        case WrongKind => Failure(StateTypeMismatch)
                        case _ => Success(None)
                      }
      ensures r != Failure(Unavailable)
    {
      if handle !in entries {
        return Success(None);
      }
      var entry := entries[handle];
      if entry.expiresAt <= now {
        Remove(handle);
        return Success(None);
      }
      if !entry.state.Bound? {
        return Failure(StateTypeMismatch);
      }
      Remove(handle);
      return Success(Some(entry.state.bound));
    }

    method TakeUnbound(handle: Handle, now: int) returns (r: Result<Option<seq<byte>>, StoreError>)
      modifies this
      ensures var o := Step(maxEntries, old(LoginView(entries)), Take(now, handle, UnboundType));
              && LoginView(entries) == o.pending
              && r == match o.reply {
                        case Taken(state) => if state.Unbound? then Success(Some(state.bytes)) else Failure(Unavailable)
                        case WrongKind => Failure(StateTypeMismatch)
                        case _ => Success(None)
                      }
      ensures r != Failure(Unavailable)
    {
      if handle !in entries {
        return Success(None);
      }
      var entry := entries[handle];
      if entry.expiresAt <= now {
        Remove(handle);
        return Success(None);
      }
      if !entry.state.Unbound? {
        return Failure(StateTypeMismatch);
      }
      Remove(handle);
      return Success(Some(entry.state.bytes));
    }
  }

  // ---------------------------------------------------------------------

  datatype CeremonyKind = Registration | Authentication

  datatype CeremonyError =
    | CeremonyInvalidTtl | CeremonyCapacityReached | CeremonyStateTooLarge | CeremonyInvalidState
    | CeremonyHandleCollision | CeremonyUnavailable

  datatype CeremonyState = CeremonyState(kind: CeremonyKind, user: UserId, state: seq<byte>)

  function ValidateState(state: seq<byte>): (r: Option<CeremonyError>)
    ensures r.None? <==> 1 <= |state| <= MAX_CEREMONY_STATE_BYTES
  {
    if state == [] then Some(CeremonyInvalidState)
    else if |state| > MAX_CEREMONY_STATE_BYTES then Some(CeremonyStateTooLarge)
    else None
  }

  datatype CeremonyEntry = CeremonyEntry(expiresAt: int, kind: CeremonyKind, user: UserId, state: seq<byte>)

  type CeremonyPending = Pending<Handle, CeremonyKind, CeremonyState>

  function CeremonyView(entries: map<Handle, CeremonyEntry>): CeremonyPending {
    map h | h in entries ::
      Record(entries[h].kind, CeremonyState(entries[h].kind, entries[h].user, entries[h].state), entries[h].expiresAt)
  }

  class InMemoryCeremonyStateStore {
    var entries: map<Handle, CeremonyEntry>
    const maxEntries: nat
    const maxTtl: nat

    ghost predicate Valid()
      reads this
    {
      forall h :: h in entries ==> ValidateState(entries[h].state).None?
    }

    constructor (maxEntries: nat, maxTtl: nat)
      ensures Valid() && entries == map[] && this.maxEntries == maxEntries && this.maxTtl == maxTtl
    {
      this.entries := map[];
      this.maxEntries := maxEntries;
      this.maxTtl := maxTtl;
    }

    method PurgeExpired(now: int)
      requires Valid()
      modifies this
      ensures Valid() && CeremonyView(entries) == Purge(old(CeremonyView(entries)), now)
    {
      entries := map h | h in entries && entries[h].expiresAt > now :: entries[h];
    }

    method Put(handle: Handle, entry: CeremonyEntry)
      requires Valid() && ValidateState(entry.state).None?
      modifies this
      ensures Valid()
      ensures CeremonyView(entries) == old(CeremonyView(entries))
                [handle := Record(entry.kind, CeremonyState(entry.kind, entry.user, entry.state), entry.expiresAt)]
    {
      entries := entries[handle := entry];
    }

    method FreshHandle(handles: seq<Handle>) returns (r: Option<Handle>)
      requires |handles| == HANDLE_ATTEMPTS
      ensures r == FirstVacant(CeremonyView(entries), handles)
    {
      for i := 0 to HANDLE_ATTEMPTS
        invariant forall j :: 0 <= j < i ==> handles[j] in entries
      {
        FirstVacantAfter(CeremonyView(entries), handles, i);
        if handles[i] !in entries {
          return Some(handles[i]);
        }
      }
      FirstVacantAfter(CeremonyView(entries), handles, HANDLE_ATTEMPTS);
      return None;
    }

    method Insert(kind: CeremonyKind, user: UserId, state: seq<byte>, ttl: nat, now: int, handles: seq<Handle>)
      returns (r: Result<Handle, CeremonyError>)
      requires Valid() && |handles| == HANDLE_ATTEMPTS
      modifies this
      ensures Valid()
      ensures ValidateState(state).Some? ==> r == Failure(ValidateState(state).value) && entries == old(entries)
      ensures ValidateState(state).None? && (ttl == 0 || ttl > maxTtl) ==>
                r == Failure(CeremonyInvalidTtl) && entries == old(entries)
      ensures ValidateState(state).None? && 0 < ttl <= maxTtl ==>
                var o := Step(maxEntries, old(CeremonyView(entries)),
                              OneTime.Insert(now, handles, kind, CeremonyState(kind, user, state), ttl));
                && CeremonyView(entries) == o.pending
                && r == match o.reply {
                          case Inserted(h) => Success(h)
                          case CapacityReached => Failure(CeremonyCapacityReached)
                          case _ => Failure(CeremonyHandleCollision)
                        }
    {
      if ValidateState(state).Some? {
        return Failure(ValidateState(state).value);
      }
      if ttl == 0 || ttl > maxTtl {
        return Failure(CeremonyInvalidTtl);
      }
      PurgeExpired(now);
      SameSize(CeremonyView(entries), entries);
      if |entries| >= maxEntries {
        return Failure(CeremonyCapacityReached);
      }
      var vacant := FreshHandle(handles);
      if vacant.None? {
        return Failure(CeremonyHandleCollision);
      }
      Put(vacant.value, CeremonyEntry(now + ttl, kind, user, state));
      return Success(vacant.value);
    }

    /** A record of the other kind is left where it is, expired or not. */
    method Take(kind: CeremonyKind, handle: Handle, now: int) returns (r: Option<CeremonyState>)
      requires Valid()
      modifies this
      ensures Valid()
      ensures var o := Step(maxEntries, old(CeremonyView(entries)), OneTime.Take(now, handle, kind));
              && Purge(CeremonyView(entries), now) == Purge(o.pending, now)
              && r == (if o.reply.Taken? then Some(o.reply.value) else None)
      ensures entries == if handle in old(entries) && old(entries)[handle].kind == kind then old(entries) - {handle}
                         else old(entries)
    {
      if handle !in entries {
        return None;
      }
      var entry := entries[handle];
      if entry.kind != kind {
        return None;
      }
      entries := entries - {handle};
      if entry.expiresAt <= now {
        return None;
      }
      return Some(CeremonyState(entry.kind, entry.user, entry.state));
    }
  }
}
