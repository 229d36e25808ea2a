/**
 * The import wired to the asset store: each accepted row is handed to
 * createAsset, whose rule violations become that row's failure message.
 */
module StoreImport {
  import opened Wrappers
  import opened Assets
  import opened AssetService
  import opened FileImport

  /**
   * assetService.createAsset called from the row loop: the message of the
   * exception it throws is reported as it is, without the data-format prefix.
   * A candidate has every field the entity needs, so only the business rules
   * can reject it.
   */
  function CreateFromCandidate(s: Store, c: Candidate): (r: (Store, Result<AssetDto, string>))
    ensures r.1.Success? <==> BusinessRulesHold(ToRequest(c))
    ensures r.1.Failure? ==> r.0 == s && Some(r.1.error) == ValidateBusinessRules(ToRequest(c))
    ensures r.1.Success? ==>
      && r.0.assets == s.assets[s.nextId := Stored(s.nextId, ToRequest(c))]
      && r.0.nextId == s.nextId + 1
      && r.1.value == ToDto(r.0.assets[s.nextId])
    ensures Valid(s) ==> Valid(r.0)
  {
    var (s', response) := CreateAsset(s, ToRequest(c));
    match response
    case Success(d) => (s', Success(d))
    case Failure(IllegalArgument(m)) => (s', Failure(m))
    case Failure(_) => assert false; (s, Failure(""))
  }

  /** One row of the loop against the store: at most one new entry, under the next id. */
  lemma StoreStep(s: Store, parsed: Result<Candidate, string>)
    requires Valid(s)
    ensures var (s2, o) := Step(s, parsed, CreateFromCandidate);
      && Valid(s2)
      && s2.nextId == s.nextId + (if o.Imported? then 1 else 0)
      && (forall id :: id in s2.assets <==> id in s.assets || (o.Imported? && id == s.nextId))
      && (forall id :: id in s.assets ==> s2.assets[id] == s.assets[id])
      && (o.Imported? ==> s.nextId in s2.assets && o.asset == ToDto(s2.assets[s.nextId]))
  {
  }

  /**
   * Importing into a valid store keeps it valid, adds exactly one entry per
   * imported row under consecutive fresh ids, leaves the entries already
   * there untouched, and reports each imported asset as it was stored.
   */
  lemma {:induction false} ImportIntoStore(s: Store, parsed: seq<Result<Candidate, string>>)
    requires Valid(s)
    ensures var (s2, report) := ImportRows(s, parsed, CreateFromCandidate);
      && Valid(s2)
      && s2.nextId == s.nextId + report.successCount
      && (forall id :: id in s2.assets <==> id in s.assets || s.nextId <= id < s2.nextId)
      && (forall id :: id in s.assets ==> s2.assets[id] == s.assets[id])
      && (forall j :: 0 <= j < report.successCount ==>
            s.nextId + j in s2.assets && report.importedAssets[j] == ToDto(s2.assets[s.nextId + j]))
  {
    if |parsed| > 0 {
      var n := |parsed| - 1;
      ImportIntoStore(s, parsed[..n]);
      var (s1, report1) := ImportRows(s, parsed[..n], CreateFromCandidate);
      var (s2, o) := Step(s1, parsed[n], CreateFromCandidate);
      StoreStep(s1, parsed[n]);
      var report2 := Record(report1, RowNumber(n), o);
      assert ImportRows(s, parsed, CreateFromCandidate) == (s2, report2);
      assert s1.nextId == s.nextId + report1.successCount;
      forall j | 0 <= j < report2.successCount
        ensures s.nextId + j in s2.assets && report2.importedAssets[j] == ToDto(s2.assets[s.nextId + j])
      {
        if j < report1.successCount {
          assert s.nextId + j in s1.assets;
          assert report2.importedAssets[j] == report1.importedAssets[j];
        } else {
          assert o.Imported? && s.nextId + j == s1.nextId;
          assert report2.importedAssets[j] == o.asset;
        }
      }
    }
  }

  /**
   * createAsset leaves the store as it was when it rejects a row, so a
   * rejected row can be taken out of the file without changing any other
   * row's outcome or the final store.
   */
  lemma RejectedRowIsolated(s: Store, parsed: seq<Result<Candidate, string>>, k: nat)
    requires k < |parsed| && Outcomes(s, parsed, CreateFromCandidate).1[k].Rejected?
    ensures Outcomes(s, Without(parsed, k), CreateFromCandidate).0 == Outcomes(s, parsed, CreateFromCandidate).0
    ensures Outcomes(s, Without(parsed, k), CreateFromCandidate).1 == Without(Outcomes(s, parsed, CreateFromCandidate).1, k)
  {
    OutcomeOfRow(s, parsed, CreateFromCandidate, k);
    DropRow(s, parsed, CreateFromCandidate, k);
  }
  /**
   * An import into a fresh database: the accepted rows receive the ids
   * 1, 2, ... in row order and nothing else is stored.
   */
  lemma ImportIntoEmptyStore(parsed: seq<Result<Candidate, string>>)
    ensures Valid(EmptyStore)
    ensures var (s2, report) := ImportRows(EmptyStore, parsed, CreateFromCandidate);
      && Valid(s2)
      && (forall id :: id in s2.assets <==> 1 <= id <= report.successCount)
      && (forall j :: 0 <= j < report.successCount ==> report.importedAssets[j] == ToDto(s2.assets[j + 1]))
  {
    ImportIntoStore(EmptyStore, parsed);
  }
}
