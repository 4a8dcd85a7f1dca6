/** `src/bot/config.py`: the administrator id list read from `ADMIN_USER_IDS` and
    the bot token check. The environment is an input: None for an unset variable. */
module BotConfig {
  import opened Wrappers
  import opened Strings

  /** The list comprehension over the comma-separated segments: blank segments are
      skipped, the others parsed in order; None when one of them is not an integer. */
  function ParseSegments(segments: seq<string>): (r: Option<seq<int>>)
    ensures r.None? <==> exists i :: 0 <= i < |segments| && Strip(segments[i]) != "" && ParseInt(Strip(segments[i])).None?
    decreases |segments|
  {
    if segments == [] then Some([])
    else
      var head := Strip(segments[0]);
      var rest := ParseSegments(segments[1..]);
      assert forall i :: 1 <= i < |segments| ==> segments[i] == segments[1..][i - 1];
      if head == "" then rest
      else match ParseInt(head)
        case None => None
        case Some(id) => if rest.Some? then Some([id] + rest.value) else None
  }

  /** `Config.ADMIN_USER_IDS`: empty when the variable is unset or empty, and empty
      when any segment is not an integer. */
  function ParseAdminIds(raw: Option<string>): (r: seq<int>)
    ensures raw.None? || raw == Some("") ==> r == []
  {
    if raw.None? || raw.value == "" then []
    else match ParseSegments(Split(raw.value, ','))
      case Some(ids) => ids
      case None => []
  }

  /** `Config.validate_token`: fails exactly when the token is unset or empty. */
  function ValidateToken(token: Option<string>): (r: Result<(), string>)
    ensures r.Failure? <==> token.None? || token.value == ""
    ensures r.Failure? ==> r.error == "Необходимо указать TELEGRAM_BOT_TOKEN"
  {
    if token.None? || token.value == "" then Failure("Необходимо указать TELEGRAM_BOT_TOKEN")
    else Success(())
  }

  function IdStrings(ids: seq<int>): (r: seq<string>)
    ensures |r| == |ids| && forall i :: 0 <= i < |ids| ==> r[i] == IntToString(ids[i])
  {
    seq(|ids|, i requires 0 <= i < |ids| => IntToString(ids[i]))
  }

  lemma {:induction false} ParseIdStrings(ids: seq<int>)
    ensures ParseSegments(IdStrings(ids)) == Some(ids)
    decreases |ids|
  {
    if ids != [] {
      var s := IntToString(ids[0]);
      StripTrimmed(s);
      ParseIntToString(ids[0]);
      assert IdStrings(ids)[1..] == IdStrings(ids[1..]);
      ParseIdStrings(ids[1..]);
      assert [ids[0]] + ids[1..] == ids;
    }
  }

  /** A list written back as comma-separated integers reads as the same list. */
  lemma AdminIdsRoundTrip(ids: seq<int>)
    requires |ids| >= 1
    ensures ParseAdminIds(Some(Join(IdStrings(ids), ","))) == ids
  {
    var parts := IdStrings(ids);
    forall i | 0 <= i < |parts| ensures ',' !in parts[i] {
      assert forall k :: 0 <= k < |parts[i]| ==> parts[i][k] != ',';
    }
    SplitJoin(parts, ',');
    ParseIdStrings(ids);
    assert Join(parts, ",") != "" by {
      JoinStartsWithFirst(parts, ",");
    }
  }

  /** One non-blank segment that is not an integer empties the whole list. */
  lemma BadSegmentEmptiesList(raw: string, i: nat)
    requires i < |Split(raw, ',')|
    requires Strip(Split(raw, ',')[i]) != "" && ParseInt(Strip(Split(raw, ',')[i])).None?
    ensures ParseAdminIds(Some(raw)) == []
  {
  }

  /** Blank segments, such as those around doubled or trailing commas, are skipped. */
  lemma BlankSegmentsSkipped(segments: seq<string>, blank: string)
    requires Strip(blank) == ""
    ensures ParseSegments([blank] + segments) == ParseSegments(segments)
  {
    assert ([blank] + segments)[1..] == segments;
  }
}
