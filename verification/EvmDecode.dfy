/**
 Decoding an EVM block and pairing its logs with transactions (crates/chains/evm/src/decode.rs,
 crates/chains/evm/src/adapter.rs). Raw records carry each JSON member already parsed, with
 `None` for a member that is missing or malformed.
 */
module EvmDecode {
  import opened Prelude
  import opened Chain

  datatype DecodeError =
    | BlockUnavailable
    | WrongHeight
    | BadTimestamp
    | BadQuantity
    | BadHash
    | BadAddress
    | BadBytes
    | Mismatch  // "inconsistent block, transaction or log identity"

  datatype Recipient = Creation | To(address: Option<string>)

  datatype RawTransaction = RawTransaction(
    hash: Option<string>,
    transactionIndex: Option<u64>,
    blockNumber: Option<u64>,
    blockHash: Option<string>,
    value: Option<string>,
    from: Option<string>,
    to: Recipient,
    input: Option<string>)

  datatype RawLog = RawLog(
    transactionIndex: Option<u64>,
    removed: Option<bool>,
    blockHash: Option<string>,
    blockNumber: Option<u64>,
    transactionHash: Option<string>,
    topics: Option<seq<Option<string>>>,
    address: Option<string>,
    data: Option<string>,
    logIndex: Option<u64>)

  datatype RawBlock = RawBlock(
    number: Option<u64>,
    timestamp: Option<u64>,
    hash: Option<string>,
    parentHash: Option<string>,
    transactions: Option<seq<RawTransaction>>)

  datatype EvmTransaction = EvmTransaction(
    hash: string, transactionIndex: u64, from: string, to: Option<string>, value: string, input: string)

  datatype EvmLog = EvmLog(
    address: string, topics: seq<string>, data: string, logIndex: u64, transactionHash: string, transactionIndex: u64)

  datatype EvmBlock = EvmBlock(
    number: u64, hash: string, parentHash: string, timestamp: u64,
    transactions: seq<EvmTransaction>, logs: seq<EvmLog>)

  datatype EvmEvent = EvmEvent(log: EvmLog, transaction: Option<EvmTransaction>, blockNumber: u64)

  // ---------------------------------------------------------------- decoding

  /** `calendar` says which seconds the date library can represent. A null block is unavailable. */
  function DecodeHeader(value: Option<RawBlock>, expected: u64, calendar: u64 -> bool): Result<Header, DecodeError> {
    if value.None? then Err(BlockUnavailable)
    else
      var raw := value.value;
      var height :- raw.number.OkOr(BadQuantity);
      if height != expected then Err(WrongHeight)
      else
        var timestamp :- raw.timestamp.OkOr(BadQuantity);
        if timestamp > I64_MAX || !calendar(timestamp) then Err(BadTimestamp)
        else
          var hash :- raw.hash.OkOr(BadHash);
          var parent :- raw.parentHash.OkOr(BadHash);
          Ok(Header(height, hash, Some(parent), Some(timestamp)))
  }

  function DecodeRecipient(to: Recipient): Result<Option<string>, DecodeError> {
    match to
    case Creation => Ok(None)
    case To(address) =>
      var a :- address.OkOr(BadAddress);
      Ok(Some(a))
  }

  /** One transaction, given the hashes already seen in the block. */
  function DecodeTransaction(raw: RawTransaction, index: nat, expected: u64, blockHash: string, seen: set<string>)
    : Result<EvmTransaction, DecodeError>
  {
    var hash :- raw.hash.OkOr(BadHash);
    var position :- raw.transactionIndex.OkOr(BadQuantity);
    if position != index then Err(Mismatch)
    else
      var number :- raw.blockNumber.OkOr(BadQuantity);
      if number != expected then Err(Mismatch)
      else
        var inBlock :- raw.blockHash.OkOr(BadHash);
        if inBlock != blockHash || hash in seen then Err(Mismatch)
        else
          var value :- raw.value.OkOr(Mismatch);
          var from :- raw.from.OkOr(BadAddress);
          var to :- DecodeRecipient(raw.to);
          var input :- raw.input.OkOr(BadBytes);
          Ok(EvmTransaction(hash, position, from, to, value, input))
  }

  function DecodeTopics(raw: seq<Option<string>>): Result<seq<string>, DecodeError> {
    if raw == [] then Ok([])
    else
      var first :- raw[0].OkOr(BadHash);
      var rest :- DecodeTopics(raw[1..]);
      Ok([first] + rest)
  }

  /** One log against the block's transactions. */
  function DecodeLog(raw: RawLog, transactions: seq<EvmTransaction>, expected: u64, blockHash: string)
    : Result<EvmLog, DecodeError>
  {
    var index :- raw.transactionIndex.OkOr(BadQuantity);
    if index >= |transactions| || raw.removed != Some(false) then Err(Mismatch)
    else
      var tx := transactions[index];
      var inBlock :- raw.blockHash.OkOr(BadHash);
      if inBlock != blockHash then Err(Mismatch)
      else
        var number :- raw.blockNumber.OkOr(BadQuantity);
        if number != expected then Err(Mismatch)
        else
          var txHash :- raw.transactionHash.OkOr(BadHash);
          if txHash != tx.hash then Err(Mismatch)
          else
            var rawTopics :- raw.topics.OkOr(Mismatch);
            var topics :- DecodeTopics(rawTopics);
            if |topics| > 4 then Err(Mismatch)
            else
              var address :- raw.address.OkOr(BadAddress);
              var data :- raw.data.OkOr(BadBytes);
              var logIndex :- raw.logIndex.OkOr(BadQuantity);
              Ok(EvmLog(address, topics, data, logIndex, tx.hash, index))
  }

  predicate Sorted(logs: seq<EvmLog>) {
    forall i, j :: 0 <= i < j < |logs| ==> logs[i].logIndex <= logs[j].logIndex
  }

  /** How many logs of a sorted sequence have an index at or below the key. */
  function UpperBound(sorted: seq<EvmLog>, key: u64): (n: nat)
    requires Sorted(sorted)
    ensures n <= |sorted|
    ensures forall i :: 0 <= i < |sorted| ==> (i < n <==> sorted[i].logIndex <= key)
  {
    if sorted == [] then 0
    else if sorted[|sorted| - 1].logIndex <= key then |sorted|
    else UpperBound(sorted[..|sorted| - 1], key)
  }

  /** Puts a log after every log of the same or a lower index. */
  function InsertByLogIndex(sorted: seq<EvmLog>, log: EvmLog): seq<EvmLog>
    requires Sorted(sorted)
  {
    var at := UpperBound(sorted, log.logIndex);
    sorted[..at] + [log] + sorted[at..]
  }

  lemma PlacedBetween(front: seq<EvmLog>, log: EvmLog, back: seq<EvmLog>)
    requires Sorted(front) && Sorted(back)
    requires forall i :: 0 <= i < |front| ==> front[i].logIndex <= log.logIndex
    requires forall i :: 0 <= i < |back| ==> log.logIndex <= back[i].logIndex
    ensures Sorted(front + [log] + back)
  {
  }

  lemma InsertKeepsSorted(sorted: seq<EvmLog>, log: EvmLog)
    requires Sorted(sorted)
    ensures Sorted(InsertByLogIndex(sorted, log))
  {
    var at := UpperBound(sorted, log.logIndex);
    PlacedBetween(sorted[..at], log, sorted[at..]);
  }

  lemma InsertKeepsContents(sorted: seq<EvmLog>, log: EvmLog)
    requires Sorted(sorted)
    ensures multiset(InsertByLogIndex(sorted, log)) == multiset(sorted) + multiset{log}
  {
    var at := UpperBound(sorted, log.logIndex);
    assert sorted == sorted[..at] + sorted[at..];
  }

  /** A stable sort by log index. */
  function SortByLogIndex(logs: seq<EvmLog>): (sorted: seq<EvmLog>)
    ensures Sorted(sorted) && multiset(sorted) == multiset(logs)
  {
    if logs == [] then []
    else
      var front, last := logs[..|logs| - 1], logs[|logs| - 1];
      assert logs == front + [last];
      InsertKeepsSorted(SortByLogIndex(front), last);
      InsertKeepsContents(SortByLogIndex(front), last);
      InsertByLogIndex(SortByLogIndex(front), last)
  }

  predicate Numbered(logs: seq<EvmLog>) {
    forall i :: 0 <= i < |logs| ==> logs[i].logIndex == i
  }

  function HashesOf(transactions: seq<EvmTransaction>): set<string> {
    set i | 0 <= i < |transactions| :: transactions[i].hash
  }

  lemma OneMoreHash(transactions: seq<EvmTransaction>, tx: EvmTransaction)
    ensures HashesOf(transactions + [tx]) == HashesOf(transactions) + {tx.hash}
  {
    var more := transactions + [tx];
    forall h ensures h in HashesOf(more) <==> h in HashesOf(transactions) || h == tx.hash {
      if h in HashesOf(transactions) {
        var i :| 0 <= i < |transactions| && transactions[i].hash == h;
        assert more[i].hash == h;
      }
      if h == tx.hash {
        assert more[|transactions|].hash == h;
      }
    }
  }

  /** Transactions one after another; the first failure is the result. */
  function TransactionsOf(raw: seq<RawTransaction>, expected: u64, blockHash: string)
    : (r: Result<seq<EvmTransaction>, DecodeError>)
    ensures r.Ok? ==> |r.value| == |raw|
  {
    if raw == [] then Ok([])
    else
      var before :- TransactionsOf(raw[..|raw| - 1], expected, blockHash);
      var tx :- DecodeTransaction(raw[|raw| - 1], |raw| - 1, expected, blockHash, HashesOf(before));
      Ok(before + [tx])
  }

  function LogsOf(raw: seq<RawLog>, transactions: seq<EvmTransaction>, expected: u64, blockHash: string)
    : (r: Result<seq<EvmLog>, DecodeError>)
    ensures r.Ok? ==> |r.value| == |raw|
  {
    if raw == [] then Ok([])
    else
      var before :- LogsOf(raw[..|raw| - 1], transactions, expected, blockHash);
      var log :- DecodeLog(raw[|raw| - 1], transactions, expected, blockHash);
      Ok(before + [log])
  }

  /** The whole decoder: header, transactions, logs, then the numbering of the sorted logs. */
  function BlockOf(value: Option<RawBlock>, logs: Option<seq<RawLog>>, expected: u64, calendar: u64 -> bool)
    : Result<EvmBlock, DecodeError>
  {
    var header :- DecodeHeader(value, expected, calendar);
    var rawTransactions :- value.value.transactions.OkOr(Mismatch);
    var transactions :- TransactionsOf(rawTransactions, expected, header.hash);
    var rawLogs :- logs.OkOr(Mismatch);
    var decoded :- LogsOf(rawLogs, transactions, expected, header.hash);
    var sorted := SortByLogIndex(decoded);
    if !Numbered(sorted) then Err(Mismatch)
    else Ok(EvmBlock(expected, header.hash, header.parentHash.value, value.value.timestamp.value, transactions, sorted))
  }

  lemma {:induction false} TransactionsFailEarly(raw: seq<RawTransaction>, k: nat, expected: u64, blockHash: string)
    requires k <= |raw| && TransactionsOf(raw[..k], expected, blockHash).Err?
    ensures TransactionsOf(raw, expected, blockHash) == TransactionsOf(raw[..k], expected, blockHash)
    decreases |raw|
  {
    if k < |raw| {
      assert raw[..|raw| - 1][..k] == raw[..k];
      TransactionsFailEarly(raw[..|raw| - 1], k, expected, blockHash);
    } else {
      assert raw[..k] == raw;
    }
  }

  lemma {:induction false} LogsFailEarly(raw: seq<RawLog>, k: nat, transactions: seq<EvmTransaction>, expected: u64,
                                         blockHash: string)
    requires k <= |raw| && LogsOf(raw[..k], transactions, expected, blockHash).Err?
    ensures LogsOf(raw, transactions, expected, blockHash) == LogsOf(raw[..k], transactions, expected, blockHash)
    decreases |raw|
  {
    if k < |raw| {
      assert raw[..|raw| - 1][..k] == raw[..k];
      LogsFailEarly(raw[..|raw| - 1], k, transactions, expected, blockHash);
    } else {
      assert raw[..k] == raw;
    }
  }

  /** The first loop of the decoder: a growing vector and the set of hashes seen. */
  method DecodeTransactions(raw: seq<RawTransaction>, expected: u64, blockHash: string)
    returns (r: Result<seq<EvmTransaction>, DecodeError>)
    ensures r == TransactionsOf(raw, expected, blockHash)
  {
    var transactions: seq<EvmTransaction> := [];
    var hashes: set<string> := {};
    for i := 0 to |raw|
      invariant TransactionsOf(raw[..i], expected, blockHash) == Ok(transactions)
      invariant hashes == HashesOf(transactions)
    {
      assert raw[..i + 1][..i] == raw[..i];
      var tx := DecodeTransaction(raw[i], i, expected, blockHash, hashes);
      if tx.Err? {
        TransactionsFailEarly(raw, i + 1, expected, blockHash);
        return Err(tx.error);
      }
      OneMoreHash(transactions, tx.value);
      hashes := hashes + {tx.value.hash};
      transactions := transactions + [tx.value];
    }
    assert raw[..|raw|] == raw;
    return Ok(transactions);
  }

  /** The second loop. */
  method DecodeLogs(raw: seq<RawLog>, transactions: seq<EvmTransaction>, expected: u64, blockHash: string)
    returns (r: Result<seq<EvmLog>, DecodeError>)
    ensures r == LogsOf(raw, transactions, expected, blockHash)
  {
    var decoded: seq<EvmLog> := [];
    for i := 0 to |raw|
      invariant LogsOf(raw[..i], transactions, expected, blockHash) == Ok(decoded)
    {
      assert raw[..i + 1][..i] == raw[..i];
      var log := DecodeLog(raw[i], transactions, expected, blockHash);
      if log.Err? {
        LogsFailEarly(raw, i + 1, transactions, expected, blockHash);
        return Err(log.error);
      }
      decoded := decoded + [log.value];
    }
    assert raw[..|raw|] == raw;
    return Ok(decoded);
  }

  /** The third loop: each sorted log must carry its own position. */
  method CheckNumbering(sorted: seq<EvmLog>) returns (ok: bool)
    ensures ok == Numbered(sorted)
  {
    for i := 0 to |sorted|
      invariant forall j :: 0 <= j < i ==> sorted[j].logIndex == j
    {
      if sorted[i].logIndex != i {
        return false;
      }
    }
    return true;
  }

  method DecodeBlock(value: Option<RawBlock>, logs: Option<seq<RawLog>>, expected: u64, calendar: u64 -> bool)
    returns (r: Result<EvmBlock, DecodeError>)
    ensures r == BlockOf(value, logs, expected, calendar)
  {
    var header := DecodeHeader(value, expected, calendar);
    if header.Err? {
      return Err(header.error);
    }
    if value.value.transactions.None? {
      return Err(Mismatch);
    }
    var transactions := DecodeTransactions(value.value.transactions.value, expected, header.value.hash);
    if transactions.Err? {
      return Err(transactions.error);
    }
    if logs.None? {
      return Err(Mismatch);
    }
    var decoded := DecodeLogs(logs.value, transactions.value, expected, header.value.hash);
    if decoded.Err? {
      return Err(decoded.error);
    }
    var sorted := SortByLogIndex(decoded.value);
    var numbered := CheckNumbering(sorted);
    if !numbered {
      return Err(Mismatch);
    }
    return Ok(EvmBlock(expected, header.value.hash, header.value.parentHash.value, value.value.timestamp.value,
                       transactions.value, sorted));
  }

  /** Collecting into a hash map: a later entry replaces an earlier one of the same index. */
  function ByIndex(transactions: seq<EvmTransaction>): map<u64, EvmTransaction> {
    if transactions == [] then map[]
    else
      var last := transactions[|transactions| - 1];
      ByIndex(transactions[..|transactions| - 1])[last.transactionIndex := last]
  }

  /** Each log with the transaction indexed at its transaction index, if any. */
  function DecodeEvents(block: EvmBlock): seq<EvmEvent> {
    var byIndex := ByIndex(block.transactions);
    seq(|block.logs|, i requires 0 <= i < |block.logs| =>
      var log := block.logs[i];
      EvmEvent(log,
               if log.transactionIndex in byIndex then Some(byIndex[log.transactionIndex]) else None,
               block.number))
  }

  // ---------------------------------------------------------------- order of the logs

  /** The lowest numbered log comes first in the sort. */
  lemma {:induction false} SortedHead(sorted: seq<EvmLog>, numbered: seq<EvmLog>, base: nat)
    requires Sorted(sorted) && multiset(sorted) == multiset(numbered) && sorted != [] && numbered != []
    requires forall i :: 0 <= i < |numbered| ==> numbered[i].logIndex == base + i
    ensures sorted[0] == numbered[0]
  {
    assert sorted[0] in multiset(numbered) && numbered[0] in multiset(sorted);
    var at :| 0 <= at < |sorted| && sorted[at] == numbered[0];
    var from :| 0 <= from < |numbered| && numbered[from] == sorted[0];
    assert sorted[0].logIndex <= sorted[at].logIndex;
  }

  lemma TailContents(logs: seq<EvmLog>)
    requires logs != []
    ensures logs == [logs[0]] + logs[1..] && multiset(logs[1..]) == multiset(logs) - multiset{logs[0]}
  {
    assert logs == [logs[0]] + logs[1..];
  }

  /** A sorted sequence with the contents of a numbered one is that sequence. */
  lemma {:induction false} SortedIsNumbered(sorted: seq<EvmLog>, numbered: seq<EvmLog>, base: nat)
    requires Sorted(sorted) && multiset(sorted) == multiset(numbered)
    requires forall i :: 0 <= i < |numbered| ==> numbered[i].logIndex == base + i
    ensures sorted == numbered
  {
    assert |multiset(sorted)| == |multiset(numbered)|;
    if sorted == [] {
    } else {
      SortedHead(sorted, numbered, base);
      TailContents(sorted);
      TailContents(numbered);
      SortedIsNumbered(sorted[1..], numbered[1..], base + 1);
    }
  }

  /** A log decodes the same wherever it stands among the others. */
  lemma {:induction false} LogsOfSplit(a: seq<RawLog>, b: seq<RawLog>, transactions: seq<EvmTransaction>,
                                       expected: u64, blockHash: string)
    ensures var ra := LogsOf(a, transactions, expected, blockHash);
            var rb := LogsOf(b, transactions, expected, blockHash);
            var rab := LogsOf(a + b, transactions, expected, blockHash);
            && (rab.Ok? <==> ra.Ok? && rb.Ok?)
            && (rab.Ok? ==> rab.value == ra.value + rb.value)
  {
    if b == [] {
      assert a + b == a;
    } else {
      LogsOfSplit(a, b[..|b| - 1], transactions, expected, blockHash);
      assert (a + b)[..|a + b| - 1] == a + b[..|b| - 1];
    }
  }

  /** The decoding of two lists agrees up to order. */
  ghost predicate SameUpToOrder(a: Result<seq<EvmLog>, DecodeError>, b: Result<seq<EvmLog>, DecodeError>) {
    (a.Ok? <==> b.Ok?) && (a.Ok? ==> multiset(a.value) == multiset(b.value))
  }

  lemma {:induction false} MoveToFront(front: seq<RawLog>, log: RawLog, back: seq<RawLog>,
                                       transactions: seq<EvmTransaction>, expected: u64, blockHash: string)
    ensures SameUpToOrder(LogsOf([log] + (front + back), transactions, expected, blockHash),
                          LogsOf(front + ([log] + back), transactions, expected, blockHash))
  {
    LogsOfSplit([log], front + back, transactions, expected, blockHash);
    LogsOfSplit(front, back, transactions, expected, blockHash);
    LogsOfSplit(front, [log] + back, transactions, expected, blockHash);
    LogsOfSplit([log], back, transactions, expected, blockHash);
  }

  lemma SplitAt(logs: seq<RawLog>, log: RawLog) returns (front: seq<RawLog>, back: seq<RawLog>)
    requires log in multiset(logs)
    ensures logs == front + ([log] + back) && multiset(front + back) == multiset(logs) - multiset{log}
  {
    var k :| 0 <= k < |logs| && logs[k] == log;
    front, back := logs[..k], logs[k + 1..];
    assert logs == front + ([log] + back);
  }

  /** Permuting the raw logs permutes what they decode to. */
  lemma {:induction false} LogsOfPermutation(a: seq<RawLog>, b: seq<RawLog>, transactions: seq<EvmTransaction>,
                                             expected: u64, blockHash: string)
    requires multiset(a) == multiset(b)
    ensures SameUpToOrder(LogsOf(a, transactions, expected, blockHash), LogsOf(b, transactions, expected, blockHash))
    decreases |a|
  {
    assert |multiset(a)| == |multiset(b)|;
    if a == [] {
    } else {
      var front, back := SplitAt(b, a[0]);
      assert a == [a[0]] + a[1..];
      assert multiset(a[1..]) == multiset(front + back);
      LogsOfPermutation(a[1..], front + back, transactions, expected, blockHash);
      LogsOfSplit([a[0]], a[1..], transactions, expected, blockHash);
      LogsOfSplit([a[0]], front + back, transactions, expected, blockHash);
      MoveToFront(front, a[0], back, transactions, expected, blockHash);
    }
  }

  lemma {:induction false} SameSortWhenNumbered(a: seq<EvmLog>, b: seq<EvmLog>)
    requires multiset(a) == multiset(b)
    ensures Numbered(SortByLogIndex(a)) || Numbered(SortByLogIndex(b)) ==> SortByLogIndex(a) == SortByLogIndex(b)
  {
    if Numbered(SortByLogIndex(a)) {
      SortedIsNumbered(SortByLogIndex(b), SortByLogIndex(a), 0);
    } else if Numbered(SortByLogIndex(b)) {
      SortedIsNumbered(SortByLogIndex(a), SortByLogIndex(b), 0);
    }
  }

  /**
   The order in which an endpoint returns a block's logs is irrelevant: any permutation is
   accepted or refused alike, and an accepted one gives the same block.
   */
  lemma {:induction false} LogOrderIsIrrelevant(value: Option<RawBlock>, a: seq<RawLog>, b: seq<RawLog>, expected: u64,
                                                calendar: u64 -> bool)
    requires multiset(a) == multiset(b)
    ensures var (ra, rb) := (BlockOf(value, Some(a), expected, calendar), BlockOf(value, Some(b), expected, calendar));
            && (ra.Ok? <==> rb.Ok?)
            && (ra.Ok? ==> ra == rb)
  {
    var header := DecodeHeader(value, expected, calendar);
    if header.Ok? && value.value.transactions.Some? {
      var transactions := TransactionsOf(value.value.transactions.value, expected, header.value.hash);
      if transactions.Ok? {
        LogsOfPermutation(a, b, transactions.value, expected, header.value.hash);
        var da := LogsOf(a, transactions.value, expected, header.value.hash);
        var db := LogsOf(b, transactions.value, expected, header.value.hash);
        if da.Ok? {
          SameSortWhenNumbered(da.value, db.value);
        }
      }
    }
  }

  // ---------------------------------------------------------------- what is carried over

  /** The transaction holds what the raw record says, member by member. */
  ghost predicate CarriesTransaction(raw: RawTransaction, tx: EvmTransaction) {
    && raw.hash == Some(tx.hash) && raw.transactionIndex == Some(tx.transactionIndex)
    && raw.from == Some(tx.from) && raw.value == Some(tx.value) && raw.input == Some(tx.input)
    && match raw.to
       case Creation => tx.to == None
       case To(address) => address.Some? && tx.to == address
  }

  /** The log holds what the raw record says, its topics one by one. */
  ghost predicate CarriesLog(raw: RawLog, log: EvmLog) {
    && raw.address == Some(log.address) && raw.data == Some(log.data) && raw.logIndex == Some(log.logIndex)
    && raw.transactionHash == Some(log.transactionHash) && raw.transactionIndex == Some(log.transactionIndex)
    && raw.topics.Some? && |raw.topics.value| == |log.topics|
    && forall i :: 0 <= i < |log.topics| ==> raw.topics.value[i] == Some(log.topics[i])
  }

  lemma {:induction false} TransactionsCarry(raw: seq<RawTransaction>, expected: u64, blockHash: string)
    requires TransactionsOf(raw, expected, blockHash).Ok?
    ensures var txs := TransactionsOf(raw, expected, blockHash).value;
            |txs| == |raw| && forall i :: 0 <= i < |txs| ==> CarriesTransaction(raw[i], txs[i])
  {
    if raw == [] {
    } else {
      TransactionsCarry(raw[..|raw| - 1], expected, blockHash);
    }
  }

  lemma {:induction false} TopicsCarry(raw: seq<Option<string>>)
    requires DecodeTopics(raw).Ok?
    ensures |DecodeTopics(raw).value| == |raw|
    ensures forall i :: 0 <= i < |raw| ==> raw[i] == Some(DecodeTopics(raw).value[i])
  {
    if raw == [] {
    } else {
      TopicsCarry(raw[1..]);
    }
  }

  lemma {:induction false} LogCarries(raw: RawLog, transactions: seq<EvmTransaction>, expected: u64, blockHash: string)
    requires DecodeLog(raw, transactions, expected, blockHash).Ok?
    ensures CarriesLog(raw, DecodeLog(raw, transactions, expected, blockHash).value)
  {
    TopicsCarry(raw.topics.value);
  }

  lemma {:induction false} LogsCarry(raw: seq<RawLog>, transactions: seq<EvmTransaction>, expected: u64,
                                     blockHash: string)
    requires LogsOf(raw, transactions, expected, blockHash).Ok?
    ensures var logs := LogsOf(raw, transactions, expected, blockHash).value;
            |logs| == |raw| && forall i :: 0 <= i < |logs| ==> CarriesLog(raw[i], logs[i])
  {
    if raw == [] {
    } else {
      LogsCarry(raw[..|raw| - 1], transactions, expected, blockHash);
      LogCarries(raw[|raw| - 1], transactions, expected, blockHash);
    }
  }

  ghost predicate FromRaw(raw: seq<RawLog>, log: EvmLog) {
    exists j :: 0 <= j < |raw| && CarriesLog(raw[j], log)
  }

  ghost predicate InLogs(raw: RawLog, logs: seq<EvmLog>) {
    exists i :: 0 <= i < |logs| && CarriesLog(raw, logs[i])
  }

  /** Each log of the block is some raw log, and each raw log is some log of the block. */
  ghost predicate SameLogs(raw: seq<RawLog>, logs: seq<EvmLog>) {
    && |logs| == |raw|
    && (forall i :: 0 <= i < |logs| ==> FromRaw(raw, logs[i]))
    && (forall j :: 0 <= j < |raw| ==> InLogs(raw[j], logs))
  }

  lemma SamePlaces(a: seq<EvmLog>, b: seq<EvmLog>, i: nat) returns (j: nat)
    requires multiset(a) == multiset(b) && i < |a|
    ensures j < |b| && b[j] == a[i]
  {
    assert a[i] in multiset(b);
    j :| 0 <= j < |b| && b[j] == a[i];
  }

  lemma {:induction false} SortKeepsLogs(raw: seq<RawLog>, decoded: seq<EvmLog>, sorted: seq<EvmLog>)
    requires |raw| == |decoded| && multiset(decoded) == multiset(sorted)
    requires forall i :: 0 <= i < |raw| ==> CarriesLog(raw[i], decoded[i])
    ensures SameLogs(raw, sorted)
  {
    assert |multiset(sorted)| == |multiset(decoded)|;
    forall i | 0 <= i < |sorted| ensures FromRaw(raw, sorted[i]) {
      var j := SamePlaces(sorted, decoded, i);
      assert CarriesLog(raw[j], sorted[i]);
    }
    forall j | 0 <= j < |raw| ensures InLogs(raw[j], sorted) {
      var i := SamePlaces(decoded, sorted, j);
      assert CarriesLog(raw[j], sorted[i]);
    }
  }

  /**
   An accepted block holds exactly what was sent: the transactions in order, and every log, each
   member under its own name.
   */
  lemma {:induction false} AcceptedBlockCarriesAll(value: Option<RawBlock>, logs: Option<seq<RawLog>>, expected: u64,
                                                   calendar: u64 -> bool)
    requires BlockOf(value, logs, expected, calendar).Ok?
    ensures value.Some? && value.value.transactions.Some? && logs.Some?
    ensures var block, txs := BlockOf(value, logs, expected, calendar).value, value.value.transactions.value;
            && |block.transactions| == |txs|
            && (forall i :: 0 <= i < |txs| ==> CarriesTransaction(txs[i], block.transactions[i]))
            && SameLogs(logs.value, block.logs)
  {
    var header := DecodeHeader(value, expected, calendar).value;
    var transactions := TransactionsOf(value.value.transactions.value, expected, header.hash).value;
    TransactionsCarry(value.value.transactions.value, expected, header.hash);
    LogsCarry(logs.value, transactions, expected, header.hash);
    var decoded := LogsOf(logs.value, transactions, expected, header.hash).value;
    SortKeepsLogs(logs.value, decoded, SortByLogIndex(decoded));
  }

  // ---------------------------------------------------------------- accepted blocks

  ghost predicate Names(transactions: seq<EvmTransaction>, log: EvmLog) {
    log.transactionIndex < |transactions| && transactions[log.transactionIndex].hash == log.transactionHash
  }

  ghost predicate IsLastAt(transactions: seq<EvmTransaction>, k: nat) {
    k < |transactions| &&
    forall j :: k < j < |transactions| ==> transactions[j].transactionIndex != transactions[k].transactionIndex
  }

  /** `tx` is the last of the transactions that claim its index. */
  ghost predicate LastAt(transactions: seq<EvmTransaction>, tx: EvmTransaction) {
    exists k :: 0 <= k < |transactions| && transactions[k] == tx && IsLastAt(transactions, k)
  }

  lemma {:induction false} ByIndexIsLast(transactions: seq<EvmTransaction>, index: u64)
    ensures index in ByIndex(transactions) <==>
            exists k :: 0 <= k < |transactions| && transactions[k].transactionIndex == index
    ensures index in ByIndex(transactions) ==>
              var tx := ByIndex(transactions)[index];
              tx.transactionIndex == index && LastAt(transactions, tx)
  {
    if transactions == [] {
    } else {
      var n := |transactions| - 1;
      var front, last := transactions[..n], transactions[n];
      ByIndexIsLast(front, index);
      if last.transactionIndex == index {
        assert IsLastAt(transactions, n);
      } else if index in ByIndex(front) {
        var tx := ByIndex(front)[index];
        var k :| 0 <= k < |front| && front[k] == tx && IsLastAt(front, k);
        assert transactions[k] == tx && IsLastAt(transactions, k) by {
          forall j | k < j < |transactions|
            ensures transactions[j].transactionIndex != transactions[k].transactionIndex
          {
            assert j < n ==> transactions[j] == front[j];
          }
        }
      }
    }
  }

  /**
   On any block, accepted or not: one event to a log, in order, each with the block's number and the
   last transaction that claims the log's transaction index, or with none if no transaction does.
   */
  lemma {:induction false} EventsAre(block: EvmBlock, i: nat)
    requires i < |block.logs|
    ensures |DecodeEvents(block)| == |block.logs|
    ensures var event, log := DecodeEvents(block)[i], block.logs[i];
            && event.log == log && event.blockNumber == block.number
            && (event.transaction.None? <==>
                  forall k :: 0 <= k < |block.transactions| ==>
                    block.transactions[k].transactionIndex != log.transactionIndex)
            && (event.transaction.Some? ==>
                  && event.transaction.value.transactionIndex == log.transactionIndex
                  && LastAt(block.transactions, event.transaction.value))
  {
    ByIndexIsLast(block.transactions, block.logs[i].transactionIndex);
  }

  /** Transactions sit at their own index and have distinct hashes; logs are numbered and name their transaction. */
  ghost predicate WellFormed(block: EvmBlock) {
    && (forall i :: 0 <= i < |block.transactions| ==> block.transactions[i].transactionIndex == i)
    && (forall i, j :: 0 <= i < j < |block.transactions| ==> block.transactions[i].hash != block.transactions[j].hash)
    && Numbered(block.logs)
    && (forall i :: 0 <= i < |block.logs| ==> Names(block.transactions, block.logs[i]))
  }

  lemma {:induction false} TransactionsAreIndexed(raw: seq<RawTransaction>, expected: u64, blockHash: string)
    requires TransactionsOf(raw, expected, blockHash).Ok?
    ensures var txs := TransactionsOf(raw, expected, blockHash).value;
            && (forall i :: 0 <= i < |txs| ==> txs[i].transactionIndex == i)
            && (forall i, j :: 0 <= i < j < |txs| ==> txs[i].hash != txs[j].hash)
  {
    if raw == [] {
    } else {
      TransactionsAreIndexed(raw[..|raw| - 1], expected, blockHash);
      var before := TransactionsOf(raw[..|raw| - 1], expected, blockHash).value;
      assert forall i :: 0 <= i < |before| ==> before[i].hash in HashesOf(before);
    }
  }

  lemma {:induction false} LogsNameTransactions(raw: seq<RawLog>, transactions: seq<EvmTransaction>, expected: u64,
                                                blockHash: string)
    requires LogsOf(raw, transactions, expected, blockHash).Ok?
    ensures forall log :: log in LogsOf(raw, transactions, expected, blockHash).value ==> Names(transactions, log)
  {
    if raw == [] {
    } else {
      LogsNameTransactions(raw[..|raw| - 1], transactions, expected, blockHash);
    }
  }

  /** Every accepted block is well formed, whatever the endpoint sent. */
  lemma {:induction false} AcceptedBlockIsWellFormed(value: Option<RawBlock>, logs: Option<seq<RawLog>>, expected: u64,
                                                     calendar: u64 -> bool)
    requires BlockOf(value, logs, expected, calendar).Ok?
    ensures WellFormed(BlockOf(value, logs, expected, calendar).value)
  {
    var header := DecodeHeader(value, expected, calendar).value;
    var transactions := TransactionsOf(value.value.transactions.value, expected, header.hash).value;
    TransactionsAreIndexed(value.value.transactions.value, expected, header.hash);
    LogsNameTransactions(logs.value, transactions, expected, header.hash);
    var decoded := LogsOf(logs.value, transactions, expected, header.hash).value;
    var sorted := SortByLogIndex(decoded);
    forall i | 0 <= i < |sorted| ensures Names(transactions, sorted[i]) {
      assert sorted[i] in multiset(sorted);
    }
  }

  lemma {:induction false} ByIndexFinds(transactions: seq<EvmTransaction>, k: nat)
    requires forall i :: 0 <= i < |transactions| ==> transactions[i].transactionIndex == i
    requires k < |transactions|
    ensures k in ByIndex(transactions) && ByIndex(transactions)[k] == transactions[k]
  {
    if k == |transactions| - 1 {
    } else {
      ByIndexFinds(transactions[..|transactions| - 1], k);
    }
  }

  lemma {:induction false} PairsOf(block: EvmBlock)
    requires WellFormed(block)
    ensures forall i :: 0 <= i < |block.logs| ==>
              && DecodeEvents(block)[i].transaction.Some?
              && DecodeEvents(block)[i].transaction.value in block.transactions
              && DecodeEvents(block)[i].transaction.value.hash == block.logs[i].transactionHash
              && forall tx :: tx in block.transactions && tx.hash == block.logs[i].transactionHash ==>
                   tx == DecodeEvents(block)[i].transaction.value
  {
    forall i | 0 <= i < |block.logs|
      ensures DecodeEvents(block)[i].transaction == Some(block.transactions[block.logs[i].transactionIndex])
    {
      assert Names(block.transactions, block.logs[i]);
      ByIndexFinds(block.transactions, block.logs[i].transactionIndex);
    }
    forall i, tx | 0 <= i < |block.logs| && tx in block.transactions && tx.hash == block.logs[i].transactionHash
      ensures tx == DecodeEvents(block)[i].transaction.value
    {
      assert Names(block.transactions, block.logs[i]);
      var k :| 0 <= k < |block.transactions| && block.transactions[k] == tx;
    }
  }

  /**
   On an accepted block, event decoding pairs every log with the one transaction whose hash the
   log carries, never with none, and keeps the logs in order.
   */
  lemma {:induction false} EventsPairExactly(value: Option<RawBlock>, logs: Option<seq<RawLog>>, expected: u64,
                                             calendar: u64 -> bool)
    requires BlockOf(value, logs, expected, calendar).Ok?
    ensures var block := BlockOf(value, logs, expected, calendar).value;
            var events := DecodeEvents(block);
            && |events| == |block.logs|
            && forall i :: 0 <= i < |events| ==>
                 && events[i].log == block.logs[i] && events[i].blockNumber == expected
                 && events[i].transaction.Some?
                 && events[i].transaction.value in block.transactions
                 && events[i].transaction.value.hash == block.logs[i].transactionHash
                 && forall tx :: tx in block.transactions && tx.hash == block.logs[i].transactionHash ==>
                      tx == events[i].transaction.value
  {
    AcceptedBlockIsWellFormed(value, logs, expected, calendar);
    PairsOf(BlockOf(value, logs, expected, calendar).value);
  }

  // ---------------------------------------------------------------- what is accepted

  /** A raw transaction that belongs at this position of this block. */
  ghost predicate GoodTransaction(raw: RawTransaction, index: nat, expected: u64, blockHash: string) {
    && raw.hash.Some? && raw.value.Some? && raw.from.Some? && raw.input.Some?
    && (raw.to.To? ==> raw.to.address.Some?)
    && raw.transactionIndex.Some? && raw.transactionIndex.value == index
    && raw.blockNumber == Some(expected) && raw.blockHash == Some(blockHash)
  }

  /** A raw log of this block, not removed, that names the transaction at its own index. */
  ghost predicate GoodLog(raw: RawLog, hashes: seq<Option<string>>, expected: u64, blockHash: string) {
    && raw.transactionIndex.Some? && raw.transactionIndex.value < |hashes|
    && raw.transactionHash.Some? && raw.transactionHash == hashes[raw.transactionIndex.value]
    && raw.removed == Some(false)
    && raw.blockNumber == Some(expected) && raw.blockHash == Some(blockHash)
    && raw.topics.Some? && |raw.topics.value| <= 4
    && (forall i :: 0 <= i < |raw.topics.value| ==> raw.topics.value[i].Some?)
    && raw.address.Some? && raw.data.Some? && raw.logIndex.Some?
  }

  /** A header for the height asked for, at a representable time. */
  ghost predicate GoodHeader(value: Option<RawBlock>, expected: u64, calendar: u64 -> bool) {
    && value.Some?
    && value.value.number == Some(expected)
    && value.value.timestamp.Some? && value.value.timestamp.value <= I64_MAX && calendar(value.value.timestamp.value)
    && value.value.hash.Some? && value.value.parentHash.Some?
  }

  /** Transactions of this block, each at its own position, with distinct hashes. */
  ghost predicate GoodTransactions(raw: seq<RawTransaction>, expected: u64, blockHash: string) {
    && (forall i :: 0 <= i < |raw| ==> GoodTransaction(raw[i], i, expected, blockHash))
    && (forall i, j :: 0 <= i < j < |raw| ==> raw[i].hash != raw[j].hash)
  }

  ghost function RawHashes(raw: seq<RawTransaction>): seq<Option<string>> {
    seq(|raw|, i requires 0 <= i < |raw| => raw[i].hash)
  }

  ghost predicate HasIndex(raw: seq<RawLog>, k: int) {
    exists i :: 0 <= i < |raw| && raw[i].logIndex.Some? && raw[i].logIndex.value == k
  }

  /** Every number below the count of logs is the index of some log. */
  ghost predicate NumberedOnce(raw: seq<RawLog>) {
    forall k :: 0 <= k < |raw| ==> HasIndex(raw, k)
  }

  ghost predicate GoodLogs(raw: seq<RawLog>, hashes: seq<Option<string>>, expected: u64, blockHash: string) {
    && (forall i :: 0 <= i < |raw| ==> GoodLog(raw[i], hashes, expected, blockHash))
    && NumberedOnce(raw)
  }

  /** A response fit to be a block, said of the raw records alone. */
  ghost predicate Acceptable(value: Option<RawBlock>, logs: Option<seq<RawLog>>, expected: u64, calendar: u64 -> bool) {
    && GoodHeader(value, expected, calendar)
    && value.value.transactions.Some? && logs.Some?
    && GoodTransactions(value.value.transactions.value, expected, value.value.hash.value)
    && GoodLogs(logs.value, RawHashes(value.value.transactions.value), expected, value.value.hash.value)
  }

  lemma {:induction false} TopicsAcceptedIff(raw: seq<Option<string>>)
    ensures DecodeTopics(raw).Ok? <==> forall i :: 0 <= i < |raw| ==> raw[i].Some?
    ensures DecodeTopics(raw).Ok? ==> |DecodeTopics(raw).value| == |raw|
  {
    if raw == [] {
    } else {
      TopicsAcceptedIff(raw[1..]);
      assert (forall i :: 0 <= i < |raw| ==> raw[i].Some?) <==>
          raw[0].Some? && forall i :: 0 <= i < |raw[1..]| ==> raw[1..][i].Some?;
    }
  }

  /** The decoded transactions carry the raw hashes, position by position. */
  ghost predicate CarryHashes(transactions: seq<EvmTransaction>, hashes: seq<Option<string>>) {
    |transactions| == |hashes| && forall i :: 0 <= i < |hashes| ==> hashes[i] == Some(transactions[i].hash)
  }

  lemma {:induction false} LogAcceptedIff(raw: RawLog, transactions: seq<EvmTransaction>, hashes: seq<Option<string>>,
                                          expected: u64, blockHash: string)
    requires CarryHashes(transactions, hashes)
    ensures var log := DecodeLog(raw, transactions, expected, blockHash);
            && (log.Ok? <==> GoodLog(raw, hashes, expected, blockHash))
            && (log.Ok? ==> raw.logIndex == Some(log.value.logIndex))
  {
    if raw.topics.Some? {
      TopicsAcceptedIff(raw.topics.value);
    }
  }

  lemma {:induction false} LogsAcceptedIff(raw: seq<RawLog>, transactions: seq<EvmTransaction>,
                                           hashes: seq<Option<string>>, expected: u64, blockHash: string)
    requires CarryHashes(transactions, hashes)
    ensures var logs := LogsOf(raw, transactions, expected, blockHash);
            && (logs.Ok? <==> forall i :: 0 <= i < |raw| ==> GoodLog(raw[i], hashes, expected, blockHash))
            && (logs.Ok? ==> forall i :: 0 <= i < |raw| ==> raw[i].logIndex == Some(logs.value[i].logIndex))
  {
    if raw == [] {
    } else {
      var front, last := raw[..|raw| - 1], raw[|raw| - 1];
      LogsAcceptedIff(front, transactions, hashes, expected, blockHash);
      LogAcceptedIff(last, transactions, hashes, expected, blockHash);
      assert forall i :: 0 <= i < |front| ==> front[i] == raw[i];
    }
  }

  lemma {:induction false} GoodFront(raw: seq<RawTransaction>, expected: u64, blockHash: string)
    requires raw != []
    ensures var front, n := raw[..|raw| - 1], |raw| - 1;
            GoodTransactions(raw, expected, blockHash) <==>
            && GoodTransactions(front, expected, blockHash)
            && GoodTransaction(raw[n], n, expected, blockHash)
            && forall i :: 0 <= i < n ==> raw[i].hash != raw[n].hash
  {
    var front := raw[..|raw| - 1];
    assert forall i :: 0 <= i < |front| ==> front[i] == raw[i];
  }

  lemma {:induction false} LastAcceptedIff(raw: seq<RawTransaction>, before: seq<EvmTransaction>, expected: u64,
                                           blockHash: string)
    requires raw != [] && CarryHashes(before, RawHashes(raw[..|raw| - 1]))
    ensures var n := |raw| - 1;
            var tx := DecodeTransaction(raw[n], n, expected, blockHash, HashesOf(before));
            && (tx.Ok? <==>
                  && GoodTransaction(raw[n], n, expected, blockHash)
                  && forall i :: 0 <= i < n ==> raw[i].hash != raw[n].hash)
            && (tx.Ok? ==> CarryHashes(before + [tx.value], RawHashes(raw)))
  {
    var n, hashes := |raw| - 1, RawHashes(raw[..|raw| - 1]);
    assert forall i :: 0 <= i < n ==> raw[i].hash == hashes[i] == Some(before[i].hash);
    assert raw[n].hash.Some? ==>
        (raw[n].hash.value in HashesOf(before) <==> exists i :: 0 <= i < n && raw[i].hash == raw[n].hash);
  }

  lemma {:induction false} TransactionsAcceptedIff(raw: seq<RawTransaction>, expected: u64, blockHash: string)
    ensures var transactions := TransactionsOf(raw, expected, blockHash);
            && (transactions.Ok? <==> GoodTransactions(raw, expected, blockHash))
            && (transactions.Ok? ==> CarryHashes(transactions.value, RawHashes(raw)))
  {
    if raw == [] {
    } else {
      var front, last := raw[..|raw| - 1], raw[|raw| - 1];
      TransactionsAcceptedIff(front, expected, blockHash);
      GoodFront(raw, expected, blockHash);
      if TransactionsOf(front, expected, blockHash).Ok? {
        var before := TransactionsOf(front, expected, blockHash).value;
        LastAcceptedIff(raw, before, expected, blockHash);
      }
    }
  }

  // ---------------------------------------------------------------- what is refused, and why

  /** Which failure of a header is reported: the first of these to apply. */
  lemma HeaderRefusedWhy(value: Option<RawBlock>, expected: u64, calendar: u64 -> bool)
    ensures var r := DecodeHeader(value, expected, calendar);
            && (r == Err(BlockUnavailable) <==> value.None?)
            && (value.Some? ==>
                  var raw := value.value;
                  var atHeight := raw.number == Some(expected);
                  var timely := raw.timestamp.Some? && raw.timestamp.value <= I64_MAX && calendar(raw.timestamp.value);
                  && (r == Err(WrongHeight) <==> raw.number.Some? && !atHeight)
                  && (r == Err(BadQuantity) <==> raw.number.None? || (atHeight && raw.timestamp.None?))
                  && (r == Err(BadTimestamp) <==> atHeight && raw.timestamp.Some? && !timely)
                  && (r == Err(BadHash) <==> atHeight && timely && (raw.hash.None? || raw.parentHash.None?)))
  {
  }

  /** The failure reported of a transaction names what is wrong with it. */
  ghost predicate TransactionFault(raw: RawTransaction, index: nat, expected: u64, blockHash: string, seen: set<string>,
                                   e: DecodeError)
  {
    match e
    case BadHash => raw.hash.None? || raw.blockHash.None?
    case BadQuantity => raw.transactionIndex.None? || raw.blockNumber.None?
    case BadAddress => raw.from.None? || (raw.to.To? && raw.to.address.None?)
    case BadBytes => raw.input.None?
    case Mismatch =>
      || (raw.transactionIndex.Some? && raw.transactionIndex.value != index)
      || (raw.blockNumber.Some? && raw.blockNumber.value != expected)
      || (raw.blockHash.Some? && raw.blockHash.value != blockHash)
      || (raw.hash.Some? && raw.hash.value in seen)
      || raw.value.None?
    case _ => false
  }

  lemma TransactionRefusedWhy(raw: RawTransaction, index: nat, expected: u64, blockHash: string, seen: set<string>)
    ensures var r := DecodeTransaction(raw, index, expected, blockHash, seen);
            r.Err? ==> TransactionFault(raw, index, expected, blockHash, seen, r.error)
  {
  }

  ghost predicate LogFault(raw: RawLog, transactions: seq<EvmTransaction>, expected: u64, blockHash: string,
                           e: DecodeError)
  {
    match e
    case BadHash =>
      || raw.blockHash.None? || raw.transactionHash.None?
      || (raw.topics.Some? && exists i :: 0 <= i < |raw.topics.value| && raw.topics.value[i].None?)
    case BadQuantity => raw.transactionIndex.None? || raw.blockNumber.None? || raw.logIndex.None?
    case BadAddress => raw.address.None?
    case BadBytes => raw.data.None?
    case Mismatch =>
      || raw.removed != Some(false)
      || (raw.transactionIndex.Some? && raw.transactionIndex.value >= |transactions|)
      || (raw.blockHash.Some? && raw.blockHash.value != blockHash)
      || (raw.blockNumber.Some? && raw.blockNumber.value != expected)
      || (raw.transactionIndex.Some? && raw.transactionIndex.value < |transactions| && raw.transactionHash.Some? &&
          raw.transactionHash.value != transactions[raw.transactionIndex.value].hash)
      || raw.topics.None? || |raw.topics.value| > 4
    case _ => false
  }

  lemma {:induction false} BadTopicIsMissing(raw: seq<Option<string>>)
    requires DecodeTopics(raw).Err?
    ensures DecodeTopics(raw) == Err(BadHash) && exists i :: 0 <= i < |raw| && raw[i].None?
  {
    if raw[0].None? {
    } else {
      BadTopicIsMissing(raw[1..]);
      var i :| 0 <= i < |raw[1..]| && raw[1..][i].None?;
      assert raw[i + 1].None?;
    }
  }

  /** The failure reported of a log names what is wrong with it. */
  lemma {:induction false} LogRefusedWhy(raw: RawLog, transactions: seq<EvmTransaction>, expected: u64,
                                         blockHash: string)
    ensures var r := DecodeLog(raw, transactions, expected, blockHash);
            r.Err? ==> LogFault(raw, transactions, expected, blockHash, r.error)
  {
    if raw.topics.Some? {
      TopicsAcceptedIff(raw.topics.value);
      if DecodeTopics(raw.topics.value).Err? {
        BadTopicIsMissing(raw.topics.value);
      }
    }
  }

  /** The first transaction that cannot be decoded decides the failure. */
  lemma {:induction false} FirstTransactionFails(raw: seq<RawTransaction>, expected: u64, blockHash: string)
    returns (i: nat, before: seq<EvmTransaction>)
    requires TransactionsOf(raw, expected, blockHash).Err?
    ensures i < |raw| && TransactionsOf(raw[..i], expected, blockHash) == Ok(before)
    ensures DecodeTransaction(raw[i], i, expected, blockHash, HashesOf(before)) ==
            Err(TransactionsOf(raw, expected, blockHash).error)
  {
    var front := raw[..|raw| - 1];
    if TransactionsOf(front, expected, blockHash).Err? {
      i, before := FirstTransactionFails(front, expected, blockHash);
      assert front[..i] == raw[..i];
    } else {
      i, before := |raw| - 1, TransactionsOf(front, expected, blockHash).value;
    }
  }

  lemma {:induction false} FirstLogFails(raw: seq<RawLog>, transactions: seq<EvmTransaction>, expected: u64,
                                         blockHash: string)
    returns (i: nat)
    requires LogsOf(raw, transactions, expected, blockHash).Err?
    ensures i < |raw| && LogsOf(raw[..i], transactions, expected, blockHash).Ok?
    ensures DecodeLog(raw[i], transactions, expected, blockHash) ==
            Err(LogsOf(raw, transactions, expected, blockHash).error)
  {
    var front := raw[..|raw| - 1];
    if LogsOf(front, transactions, expected, blockHash).Err? {
      i := FirstLogFails(front, transactions, expected, blockHash);
      assert front[..i] == raw[..i];
    } else {
      i := |raw| - 1;
    }
  }

  lemma HeaderAcceptedIff(value: Option<RawBlock>, expected: u64, calendar: u64 -> bool)
    ensures DecodeHeader(value, expected, calendar).Ok? <==> GoodHeader(value, expected, calendar)
  {
  }

  lemma HeaderFields(value: Option<RawBlock>, expected: u64, calendar: u64 -> bool)
    requires DecodeHeader(value, expected, calendar).Ok?
    ensures value.Some? && value.value.number == Some(expected)
    ensures value.value.hash.Some? && value.value.parentHash.Some? && value.value.timestamp.Some?
    ensures value.value.timestamp.value <= I64_MAX && calendar(value.value.timestamp.value)
    ensures DecodeHeader(value, expected, calendar).value ==
            Header(expected, value.value.hash.value, value.value.parentHash, value.value.timestamp)
  {
  }

  ghost predicate Appears(logs: seq<EvmLog>, k: int) {
    exists i :: 0 <= i < |logs| && logs[i].logIndex == k
  }

  /** A range of indices that all appear is no longer than the list. */
  lemma {:induction false} Pigeonhole(logs: seq<EvmLog>, low: int, high: int)
    requires forall k :: low <= k < high ==> Appears(logs, k)
    ensures high - low <= |logs|
    decreases high - low
  {
    if high <= low {
    } else {
      assert Appears(logs, high - 1);
      var at :| 0 <= at < |logs| && logs[at].logIndex == high - 1;
      var rest := logs[..at] + logs[at + 1..];
      forall k | low <= k < high - 1 ensures Appears(rest, k) {
        assert Appears(logs, k);
        var i :| 0 <= i < |logs| && logs[i].logIndex == k;
        assert rest[if i < at then i else i - 1].logIndex == k;
      }
      Pigeonhole(rest, low, high - 1);
    }
  }

  /** In index order, an index at or below a position appears only there or before it. */
  lemma {:induction false} NoneAbove(sorted: seq<EvmLog>, i: nat)
    requires Sorted(sorted) && i < |sorted| && forall k :: 0 <= k < |sorted| ==> Appears(sorted, k)
    ensures sorted[i].logIndex <= i
  {
    if sorted[i].logIndex > i {
      forall k | 0 <= k < i + 1 ensures Appears(sorted[..i], k) {
        assert Appears(sorted, k);
        var j :| 0 <= j < |sorted| && sorted[j].logIndex == k;
        assert sorted[..i][j].logIndex == k;
      }
      Pigeonhole(sorted[..i], 0, i + 1);
    }
  }

  lemma {:induction false} NoneBelow(sorted: seq<EvmLog>, i: nat)
    requires Sorted(sorted) && i < |sorted| && forall k :: 0 <= k < |sorted| ==> Appears(sorted, k)
    ensures sorted[i].logIndex >= i
  {
    if sorted[i].logIndex < i {
      var above := sorted[i + 1..];
      forall k | i <= k < |sorted| ensures Appears(above, k) {
        assert Appears(sorted, k);
        var j :| 0 <= j < |sorted| && sorted[j].logIndex == k;
        assert above[j - (i + 1)].logIndex == k;
      }
      Pigeonhole(above, i, |sorted|);
    }
  }

  /** In index order, logs carry their positions exactly when every position is some log's index. */
  lemma {:induction false} NumberedIff(sorted: seq<EvmLog>)
    requires Sorted(sorted)
    ensures Numbered(sorted) <==> forall k :: 0 <= k < |sorted| ==> Appears(sorted, k)
  {
    if Numbered(sorted) {
      forall k | 0 <= k < |sorted| ensures Appears(sorted, k) {
        assert sorted[k].logIndex == k;
      }
    }
    if forall k :: 0 <= k < |sorted| ==> Appears(sorted, k) {
      forall i | 0 <= i < |sorted| ensures sorted[i].logIndex == i {
        NoneAbove(sorted, i);
        NoneBelow(sorted, i);
      }
    }
  }

  lemma {:induction false} AppearsInSort(logs: seq<EvmLog>, sorted: seq<EvmLog>, k: int)
    requires multiset(logs) == multiset(sorted) && Appears(logs, k)
    ensures Appears(sorted, k)
  {
    var i :| 0 <= i < |logs| && logs[i].logIndex == k;
    assert logs[i] in multiset(sorted);
    var j :| 0 <= j < |sorted| && sorted[j] == logs[i];
  }

  /** Sorting keeps which indices appear, and decoding keeps each log's index. */
  lemma {:induction false} SortedNumberedIff(raw: seq<RawLog>, decoded: seq<EvmLog>)
    requires |raw| == |decoded| && forall i :: 0 <= i < |raw| ==> raw[i].logIndex == Some(decoded[i].logIndex)
    ensures Numbered(SortByLogIndex(decoded)) <==> NumberedOnce(raw)
  {
    var sorted := SortByLogIndex(decoded);
    assert |multiset(sorted)| == |multiset(decoded)|;
    NumberedIff(sorted);
    forall k | 0 <= k < |raw| ensures Appears(sorted, k) <==> HasIndex(raw, k) {
      assert Appears(decoded, k) <==> HasIndex(raw, k) by {
        if i :| 0 <= i < |raw| && raw[i].logIndex.Some? && raw[i].logIndex.value == k {
          assert decoded[i].logIndex == k;
        }
        if i :| 0 <= i < |decoded| && decoded[i].logIndex == k {
          assert raw[i].logIndex == Some(decoded[i].logIndex);
        }
      }
      if Appears(decoded, k) {
        AppearsInSort(decoded, sorted, k);
      }
      if Appears(sorted, k) {
        AppearsInSort(sorted, decoded, k);
      }
    }
  }

  /**
   Exactly which responses are accepted, said of the raw records: a header for the height asked
   for, transactions of this block at their own positions with distinct hashes, and live logs of
   this block that name the transactions at their indices and are numbered from zero without a gap.
   */
  lemma {:induction false} AcceptedIff(value: Option<RawBlock>, logs: Option<seq<RawLog>>, expected: u64,
                                       calendar: u64 -> bool)
    ensures BlockOf(value, logs, expected, calendar).Ok? <==> Acceptable(value, logs, expected, calendar)
  {
    HeaderAcceptedIff(value, expected, calendar);
    if GoodHeader(value, expected, calendar) && value.value.transactions.Some? {
      HeaderFields(value, expected, calendar);
      var txs, hash := value.value.transactions.value, value.value.hash.value;
      TransactionsAcceptedIff(txs, expected, hash);
      var transactions := TransactionsOf(txs, expected, hash);
      if transactions.Ok? && logs.Some? {
        LogsAcceptedIff(logs.value, transactions.value, RawHashes(txs), expected, hash);
        var decoded := LogsOf(logs.value, transactions.value, expected, hash);
        if decoded.Ok? {
          SortedNumberedIff(logs.value, decoded.value);
        }
      }
    }
  }

  /**
   Why a block is refused, in order: its header; a missing list of transactions; its first bad
   transaction; a missing list of logs; its first bad log; and last, indices that do not number the
   logs. A missing list and a bad numbering are reported as an inconsistency.
   */
  lemma {:induction false} BlockRefusedWhy(value: Option<RawBlock>, logs: Option<seq<RawLog>>, expected: u64,
                                           calendar: u64 -> bool)
    ensures var header := DecodeHeader(value, expected, calendar);
            var r := BlockOf(value, logs, expected, calendar);
            if header.Err? then r == Err(header.error)
            else if value.value.transactions.None? then r == Err(Mismatch)
            else
              var transactions := TransactionsOf(value.value.transactions.value, expected, header.value.hash);
              if transactions.Err? then r == Err(transactions.error)
              else if logs.None? then r == Err(Mismatch)
              else
                var decoded := LogsOf(logs.value, transactions.value, expected, header.value.hash);
                if decoded.Err? then r == Err(decoded.error)
                else if !NumberedOnce(logs.value) then r == Err(Mismatch)
                else r.Ok?
  {
    AcceptedIff(value, logs, expected, calendar);
    HeaderAcceptedIff(value, expected, calendar);
    if GoodHeader(value, expected, calendar) && value.value.transactions.Some? {
      HeaderFields(value, expected, calendar);
      var txs, hash := value.value.transactions.value, value.value.hash.value;
      TransactionsAcceptedIff(txs, expected, hash);
      var transactions := TransactionsOf(txs, expected, hash);
      if transactions.Ok? && logs.Some? {
        LogsAcceptedIff(logs.value, transactions.value, RawHashes(txs), expected, hash);
      }
    }
  }

  // ---------------------------------------------------------------- the numbering

  /** The header fetched with a block is that block's own: number, hash, parent and time agree. */
  lemma {:induction false} HeaderIsTheBlocks(value: Option<RawBlock>, logs: Option<seq<RawLog>>, expected: u64,
                                             calendar: u64 -> bool)
    requires BlockOf(value, logs, expected, calendar).Ok?
    ensures var block := BlockOf(value, logs, expected, calendar).value;
            && DecodeHeader(value, expected, calendar) ==
                 Ok(Header(block.number, block.hash, Some(block.parentHash), Some(block.timestamp)))
            && value.Some?
            && value.value.number == Some(expected) && value.value.hash == Some(block.hash)
            && value.value.parentHash == Some(block.parentHash) && value.value.timestamp == Some(block.timestamp)
            && block.timestamp <= I64_MAX && calendar(block.timestamp)
  {
    HeaderFields(value, expected, calendar);
    var header := DecodeHeader(value, expected, calendar).value;
    var block := BlockOf(value, logs, expected, calendar).value;
    assert block.number == expected && block.hash == header.hash && block.parentHash == header.parentHash.value;
    assert block.timestamp == value.value.timestamp.value;
  }
}
