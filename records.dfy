/**
 * The candidate records the scheduler keeps, and the pure rules that fill
 * one from a schedule entry: the record key, the sanitised file name and the
 * channel list.
 *
 * Instants are seconds on one time line. The source derives a record's start
 * and end instants by parsing the schedule's date strings with a configured
 * offset; that parsing is not part of this model, so a schedule entry carries
 * the two instants beside the raw strings they come from.
 */
module Records {
  import opened Wrappers
  import opened Text
  import opened Keywords

  type Time = int

  const SecondsPerMinute: int := 60
  const SecondsPerHour: int := 3600

  /** One entry of the published schedule. */
  datatype ScheduleShow = ScheduleShow(
    name: string,
    channel: string,
    quality: string,
    language: string,
    id: string,
    category: string,
    time: string,
    endTime: string,
    runtime: string,
    startDT: Time,   // the instant `time` denotes
    endDT: Time)     // the instant `endTime` denotes

  /** One channel a show is broadcast on. */
  datatype ChannelInfo = ChannelInfo(number: string, quality: string, language: string)

  /** A candidate recording. `processSpawnedFlag` and `bestChannelSetFlag`
      are never written while filling the record, so they survive refills. */
  datatype RecordInfo = RecordInfo(
    id: string,
    description: string,
    strStartDT: string,
    strEndDT: string,
    strDuration: string,
    startDT: Time,
    endDT: Time,
    preMinutes: int,
    postMinutes: int,
    starredFlag: bool,
    emailFlag: bool,
    qualityPref: string,
    categoryPref: string,
    langPref: string,
    channelPref: string,
    category: string,
    keywordPos: int,
    fileName: string,
    processSpawnedFlag: bool,
    bestChannelSetFlag: bool,
    channels: seq<ChannelInfo>)

  /** A freshly constructed record, before any field is filled. */
  function NewRecordInfo(): RecordInfo
  {
    RecordInfo("", "", "", "", "", 0, 0, 0, 0, false, false, "", "", "", "", "", 0, "", false, false, [])
  }

  /** The key of a schedule entry: its start string followed by its title. */
  function ShowKey(show: ScheduleShow): string
  {
    show.time + show.name
  }

  /** The key rebuilt from a record: its start string followed by its description. */
  function RecordKey(r: RecordInfo): string
  {
    r.strStartDT + r.description
  }

  /** Characters the file name never keeps, besides the platform's invalid
      file-name characters. */
  const UnsafeChars: string := "|'/\\ ,<>#@!+&^*()~`;"

  /** The marker put in front of a starred show's file name. */
  const StarMarker: string := "+_"

  /** The file name a title gets: spaces become underscores, every character
      of `strip` is removed, and starred shows get the marker in front. */
  function SanitizedFileName(name: string, starred: bool, strip: seq<char>): string
  {
    (if starred then StarMarker else "") + StripChars(ReplaceChar(name, ' ', '_'), strip)
  }

  /** The name after the optional marker. */
  function FileNameBody(fileName: string, starred: bool): string
  {
    if starred && |fileName| >= 2 then fileName[2..] else fileName
  }

  /** What the sanitised name promises: its body keeps, in order, the
      characters of the title that are not stripped, with spaces turned into
      underscores; it contains no stripped character; and it starts with the
      marker exactly when the show is starred, because the marker's '+' is
      itself one of the stripped characters. */
  lemma SanitizedFileNameProperties(name: string, starred: bool, platformInvalid: seq<char>)
    ensures var strip := UnsafeChars + platformInvalid;
            var f := SanitizedFileName(name, starred, strip);
            var body := FileNameBody(f, starred);
            && body == StripChars(ReplaceChar(name, ' ', '_'), strip)
            && (forall i :: 0 <= i < |body| ==> body[i] !in strip)
            && (starred <==> |f| >= 2 && f[..2] == StarMarker)
  {
    var strip := UnsafeChars + platformInvalid;
    var body := StripChars(ReplaceChar(name, ' ', '_'), strip);
    var f := SanitizedFileName(name, starred, strip);
    assert '+' in strip by {
      assert UnsafeChars[11] == '+';
    }
    if starred {
      assert f == StarMarker + body;
      assert f[2..] == body;
      assert f[..2] == StarMarker;
    } else {
      assert f == body;
      if |body| >= 2 {
        assert body[0] != '+';
        assert f[..2][0] != StarMarker[0];
      }
    }
  }

  /** ChannelInfo.AddUpdateChannel: the entry with the same channel number
      is updated in place, or the channel is appended when none has it. */
  function AddUpdateChannel(channels: seq<ChannelInfo>, number: string, quality: string, language: string)
    : (r: seq<ChannelInfo>)
    ensures ChannelInfo(number, quality, language) in r
    ensures forall c :: c in channels && c.number != number ==> c in r
    ensures forall c :: c in r ==> c in channels || c == ChannelInfo(number, quality, language)
  {
    if channels == [] then [ChannelInfo(number, quality, language)]
    else if channels[0].number == number then [ChannelInfo(number, quality, language)] + channels[1..]
    else
      var rest := AddUpdateChannel(channels[1..], number, quality, language);
      assert forall c :: c in channels && c != channels[0] ==> c in channels[1..];
      [channels[0]] + rest
  }

  /** Adding the same channel twice has the effect of adding it once. */
  lemma {:induction false} AddUpdateChannelIdempotent(channels: seq<ChannelInfo>, number: string, quality: string, language: string)
    ensures var once := AddUpdateChannel(channels, number, quality, language);
            AddUpdateChannel(once, number, quality, language) == once
  {
    if channels != [] && channels[0].number != number {
      AddUpdateChannelIdempotent(channels[1..], number, quality, language);
      var rest := AddUpdateChannel(channels[1..], number, quality, language);
      assert ([channels[0]] + rest)[1..] == rest;
    }
  }

  /** The record after one schedule match: every show-derived field and every
      rule preference is overwritten, the channel is added or updated, and
      the spawn and best-channel flags are carried over from `rec`. */
  function FillRecord(rec: RecordInfo, show: ScheduleShow, rule: KeywordInfo, pos: int, fileName: string)
    : (r: RecordInfo)
    ensures RecordKey(r) == ShowKey(show)
    ensures r.description == show.name && r.keywordPos == pos && r.fileName == fileName
    ensures r.processSpawnedFlag == rec.processSpawnedFlag
    ensures r.bestChannelSetFlag == rec.bestChannelSetFlag
    ensures r.startDT == show.startDT && r.endDT == show.endDT
    ensures ChannelInfo(show.channel, show.quality, show.language) in r.channels
  {
    rec.(
      channels := AddUpdateChannel(rec.channels, show.channel, show.quality, show.language),
      id := show.id,
      description := show.name,
      strStartDT := show.time,
      strEndDT := show.endTime,
      strDuration := show.runtime,
      startDT := show.startDT,
      endDT := show.endDT,
      preMinutes := rule.preMinutes,
      postMinutes := rule.postMinutes,
      starredFlag := rule.starredFlag,
      emailFlag := rule.emailFlag,
      qualityPref := rule.qualityPref,
      categoryPref := rule.categoryPref,
      langPref := rule.langPref,
      channelPref := rule.channelPref,
      category := show.category,
      keywordPos := pos,
      fileName := fileName)
  }

  /** Filling a record twice from the same entry and rule gives the same
      record as filling it once. */
  lemma FillRecordIdempotent(rec: RecordInfo, show: ScheduleShow, rule: KeywordInfo, pos: int, fileName: string)
    ensures var once := FillRecord(rec, show, rule, pos, fileName);
            FillRecord(once, show, rule, pos, fileName) == once
  {
    AddUpdateChannelIdempotent(rec.channels, show.channel, show.quality, show.language);
  }
}
