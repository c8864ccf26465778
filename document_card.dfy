/** The document card: its relative "last edited" label, its content
    preview, and the share modal with its two requests (generate a share
    link, send an email invitation). */
module DocumentCard {
  import opened Common
  import opened Text

  // ---------------------------------------------------------------------
  // Relative time label

  /** The bucket `formatDate` puts an elapsed time in. `CalendarDate` is the
      locale-formatted date shown for anything a week old or older. */
  datatype Age = JustNow | MinutesAgo(minutes: nat) | HoursAgo(hours: nat) | DaysAgo(days: nat) | CalendarDate

  const MinuteMs := 60_000
  const HourMs := 3_600_000
  const DayMs := 86_400_000
  const WeekMs := 604_800_000

  /** Flooring to seconds, then minutes, hours and days is flooring once
      by the length of the unit in milliseconds. */
  lemma FloorChain(ms: int)
    ensures ms / 1000 / 60 == ms / MinuteMs
    ensures ms / MinuteMs / 60 == ms / HourMs
    ensures ms / HourMs / 24 == ms / DayMs
  {
  }

  /** The bucket of `formatDate` for a date `elapsedMs` milliseconds in the
      past (negative for a future date), computed as the source does: whole
      seconds, then whole minutes, hours and days, each tried in turn. The
      contract restates the buckets as ranges of milliseconds. */
  function AgeOf(elapsedMs: int): (a: Age)
    ensures a == JustNow <==> elapsedMs < MinuteMs
    ensures a.MinutesAgo? <==> MinuteMs <= elapsedMs < HourMs
    ensures a.MinutesAgo? ==> a.minutes == elapsedMs / MinuteMs && 1 <= a.minutes < 60
    ensures a.HoursAgo? <==> HourMs <= elapsedMs < DayMs
    ensures a.HoursAgo? ==> a.hours == elapsedMs / HourMs && 1 <= a.hours < 24
    ensures a.DaysAgo? <==> DayMs <= elapsedMs < WeekMs
    ensures a.DaysAgo? ==> a.days == elapsedMs / DayMs && 1 <= a.days < 7
    ensures a == CalendarDate <==> WeekMs <= elapsedMs
  {
    var seconds := elapsedMs / 1000;
    FloorChain(elapsedMs);
    if seconds < 60 then JustNow
    else
      var minutes := seconds / 60;
      if minutes < 60 then MinutesAgo(minutes)
      else
        var hours := minutes / 60;
        if hours < 24 then HoursAgo(hours)
        else
          var days := hours / 24;
          if days < 7 then DaysAgo(days)
          else CalendarDate
  }

  /** The text shown for a bucket; `None` for the calendar date, whose
      locale rendering is not part of this model. */
  function Label(a: Age): (r: Option<string>)
    ensures r.None? <==> a == CalendarDate
    ensures r.Some? && a != JustNow ==> |r.value| > 5 && r.value[|r.value| - 4..] == " ago"
  {
    match a
    case JustNow => Some("Just now")
    case MinutesAgo(m) => Some(DecimalString(m) + "m ago")
    case HoursAgo(h) => Some(DecimalString(h) + "h ago")
    case DaysAgo(d) => Some(DecimalString(d) + "d ago")
    case CalendarDate => None
  }

  /** The label of a counted bucket reads back to its number and unit. */
  lemma LabelParts(n: nat, unit: char, r: string)
    requires r == DecimalString(n) + [unit] + " ago"
    ensures |r| > 5 && r[|r| - 5] == unit && r[|r| - 1] == 'o'
    ensures r[..|r| - 5] == DecimalString(n)
  {
  }

  /** No two buckets share a label: the label says how long ago, exactly. */
  lemma {:induction false} LabelInjective(a: Age, b: Age)
    requires Label(a).Some? && Label(a) == Label(b)
    ensures a == b
  {
    var r := Label(a).value;
    match a {
      case JustNow =>
        assert r[|r| - 1] == 'w';
        match b {
          case JustNow =>
          case MinutesAgo(n) => LabelParts(n, 'm', r);
          case HoursAgo(n) => LabelParts(n, 'h', r);
          case DaysAgo(n) => LabelParts(n, 'd', r);
        }
      case MinutesAgo(m) =>
        LabelParts(m, 'm', r);
        match b {
          case JustNow =>
          case MinutesAgo(n) => LabelParts(n, 'm', r); DecimalStringInjective(m, n);
          case HoursAgo(n) => LabelParts(n, 'h', r);
          case DaysAgo(n) => LabelParts(n, 'd', r);
        }
      case HoursAgo(m) =>
        LabelParts(m, 'h', r);
        match b {
          case JustNow =>
          case MinutesAgo(n) => LabelParts(n, 'm', r);
          case HoursAgo(n) => LabelParts(n, 'h', r); DecimalStringInjective(m, n);
          case DaysAgo(n) => LabelParts(n, 'd', r);
        }
      case DaysAgo(m) =>
        LabelParts(m, 'd', r);
        match b {
          case JustNow =>
          case MinutesAgo(n) => LabelParts(n, 'm', r);
          case HoursAgo(n) => LabelParts(n, 'h', r);
          case DaysAgo(n) => LabelParts(n, 'd', r); DecimalStringInjective(m, n);
        }
    }
  }

  /** "Just now" is the label of no other bucket. */
  lemma OnlyJustNowReadsJustNow(a: Age)
    ensures Label(a) == Some("Just now") ==> a == JustNow
  {
    if Label(a) == Some("Just now") {
      LabelInjective(a, JustNow);
    }
  }

  /** `formatDate` for an elapsed time in milliseconds. */
  function FormatDate(elapsedMs: int): (r: Option<string>)
    ensures r == Some("Just now") <==> elapsedMs < MinuteMs
    ensures r.None? <==> WeekMs <= elapsedMs
    ensures MinuteMs <= elapsedMs < HourMs ==> r == Some(DecimalString(elapsedMs / MinuteMs) + "m ago")
    ensures HourMs <= elapsedMs < DayMs ==> r == Some(DecimalString(elapsedMs / HourMs) + "h ago")
    ensures DayMs <= elapsedMs < WeekMs ==> r == Some(DecimalString(elapsedMs / DayMs) + "d ago")
  {
    var a := AgeOf(elapsedMs);
    OnlyJustNowReadsJustNow(a);
    Label(a)
  }

  /** Two elapsed times get the same label only when they fall in the same
      bucket with the same count. */
  lemma FormatDateDistinguishesAges(x: int, y: int)
    requires FormatDate(x).Some? && FormatDate(x) == FormatDate(y)
    ensures AgeOf(x) == AgeOf(y)
  {
    LabelInjective(AgeOf(x), AgeOf(y));
  }

  // ---------------------------------------------------------------------
  // Content preview

  const PreviewLength := 120

  /** `document.content?.replace(/<[^>]*>/g, "") || ""`; `None` is a
      missing (`undefined` or `null`) content. */
  function StrippedContent(content: Option<string>): (text: string)
    ensures content.None? ==> text == ""
    ensures content.Some? ==> text == StripTags(content.value) && |text| <= |content.value|
    ensures TagFree(text)
  {
    match content
    case None => ""
    case Some(c) => StripTags(c)
  }

  /** `getPreview`: the first 120 code units of the stripped content, with
      "..." appended when something was cut off. */
  function Preview(content: Option<string>): (r: string)
    ensures var text := StrippedContent(content);
      && |r| <= PreviewLength + 3
      && (|r| > PreviewLength <==> |text| > PreviewLength)
      && (|text| <= PreviewLength ==> r == text)
      && (|text| > PreviewLength ==> r[..PreviewLength] == text[..PreviewLength] && r[PreviewLength..] == "...")
    ensures TagFree(r)
  {
    var text := StrippedContent(content);
    if |text| > PreviewLength then
      var head := text[..PreviewLength];
      var r := head + "...";
      TagFreePrefix(text, PreviewLength);
      assert TagFree(r) by {
        forall i, j | 0 <= i < j < |r| && r[i] == '<'
          ensures r[j] != '>'
        {
          assert i < PreviewLength;
          if j < PreviewLength { assert r[i] == head[i] && r[j] == head[j]; }
        }
      }
      r
    else
      text
  }

  // ---------------------------------------------------------------------
  // Email address check

  /** `\s` of JavaScript regular expressions: the ASCII white space, the
      Unicode space separators, line and paragraph separators, and the byte
      order mark. */
  predicate IsSpace(c: char)
  {
    || '\t' <= c <= '\r'
    || c == ' '
    || c == '\U{00A0}'
    || c == '\U{1680}'
    || '\U{2000}' <= c <= '\U{200A}'
    || c == '\U{2028}' || c == '\U{2029}'
    || c == '\U{202F}' || c == '\U{205F}'
    || c == '\U{3000}' || c == '\U{FEFF}'
  }

  /** One `[^\s@]+` run: non-empty, no white space, no `@`. */
  predicate Atom(s: string)
  {
    |s| > 0 && forall i :: 0 <= i < |s| ==> !IsSpace(s[i]) && s[i] != '@'
  }

  /** The language of `/^[^\s@]+@[^\s@]+\.[^\s@]+$/`: an atom, `@`, an atom,
      `.`, an atom — where the `.` may be any dot after the `@` that leaves
      an atom on both sides. */
  ghost predicate MatchesEmailPattern(s: string)
  {
    exists i, j :: 0 < i < j < |s| && s[i] == '@' && s[j] == '.'
      && Atom(s[..i]) && Atom(s[i + 1..j]) && Atom(s[j + 1..])
  }

  predicate NoSpace(s: string)
  {
    forall i :: 0 <= i < |s| ==> !IsSpace(s[i])
  }

  /** The check as a decision procedure: exactly one `@`, no white space,
      a non-empty local part, and a domain with a `.` that is neither its
      first nor its last character. */
  predicate ValidEmail(s: string)
  {
    && '@' in s
    && NoSpace(s)
    && var at := FirstIndexOf(s, '@');
    && at > 0
    && '@' !in s[at + 1..]
    && var domain := s[at + 1..];
    && |domain| >= 3
    && '.' in domain[1..|domain| - 1]
  }

  /** A slice of an address without white space, holding no `@`, is an
      atom as soon as it is non-empty. */
  lemma AtomSlice(s: string, i: int, j: int)
    requires 0 <= i < j <= |s| && NoSpace(s)
    requires forall t :: i <= t < j ==> s[t] != '@'
    ensures Atom(s[i..j])
  {
    forall k | 0 <= k < j - i ensures !IsSpace(s[i..j][k]) && s[i..j][k] != '@' {
      assert s[i..j][k] == s[i + k];
    }
  }

  /** An address the decision procedure accepts matches the pattern. */
  lemma ValidEmailMatches(s: string)
    requires ValidEmail(s)
    ensures MatchesEmailPattern(s)
  {
    var at := FirstIndexOf(s, '@');
    var domain := s[at + 1..];
    var mid := domain[1..|domain| - 1];
    var k := FirstIndexOf(mid, '.');
    var j := at + 2 + k;
    assert s[j] == mid[k] == '.';
    assert forall t :: 0 <= t < at ==> s[t] != '@' by {
      forall t | 0 <= t < at ensures s[t] != '@' { assert s[t] == s[..at][t]; }
    }
    assert forall t :: at < t < |s| ==> s[t] != '@' by {
      forall t | at < t < |s| ensures s[t] != '@' { assert s[t] == domain[t - at - 1]; }
    }
    AtomSlice(s, 0, at);
    AtomSlice(s, at + 1, j);
    AtomSlice(s, j + 1, |s|);
    assert s[..at] == s[0..at];
    assert s[j + 1..] == s[j + 1..|s|];
  }

  /** The characters of a matching address, piece by piece. */
  lemma PatternPieces(s: string, i: int, j: int)
    requires 0 < i < j < |s| && s[i] == '@' && s[j] == '.'
    requires Atom(s[..i]) && Atom(s[i + 1..j]) && Atom(s[j + 1..])
    ensures NoSpace(s)
    ensures forall t :: 0 <= t < |s| && t != i ==> s[t] != '@'
  {
    forall t | 0 <= t < |s|
      ensures !IsSpace(s[t]) && (t != i ==> s[t] != '@')
    {
      if t < i { assert s[t] == s[..i][t]; }
      else if t == i || t == j { }
      else if t < j { assert s[t] == s[i + 1..j][t - i - 1]; }
      else { assert s[t] == s[j + 1..][t - j - 1]; }
    }
  }

  /** An address matching the pattern is accepted by the decision procedure. */
  lemma PatternIsValidEmail(s: string)
    requires MatchesEmailPattern(s)
    ensures ValidEmail(s)
  {
    var i, j :| 0 < i < j < |s| && s[i] == '@' && s[j] == '.'
      && Atom(s[..i]) && Atom(s[i + 1..j]) && Atom(s[j + 1..]);
    PatternPieces(s, i, j);
    var at := FirstIndexOf(s, '@');
    assert at == i;
    var domain := s[at + 1..];
    assert '@' !in domain by {
      forall t | 0 <= t < |domain| ensures domain[t] != '@' { assert domain[t] == s[at + 1 + t]; }
    }
    assert domain[1..|domain| - 1][j - i - 2] == '.';
  }

  /** The decision procedure accepts exactly the language of the pattern. */
  lemma ValidEmailIsPattern(s: string)
    ensures ValidEmail(s) <==> MatchesEmailPattern(s)
  {
    if ValidEmail(s) { ValidEmailMatches(s); }
    if MatchesEmailPattern(s) { PatternIsValidEmail(s); }
  }

  // ---------------------------------------------------------------------
  // Share modal

  datatype Permission = Viewer | Editor

  /** The value of the permission radio buttons. */
  function PermissionValue(p: Permission): (v: string)
    ensures v == "viewer" || v == "editor"
    ensures p == Viewer <==> v == "viewer"
  {
    match p
    case Viewer => "viewer"
    case Editor => "editor"
  }

  /** `POST /documents/:id/share-link` with body `{permission}`. */
  datatype ShareLinkRequest = ShareLinkRequest(path: string, permission: string)

  /** `POST /documents/:id/send-invitation` with body `{email, permission}`. */
  datatype InvitationRequest = InvitationRequest(path: string, email: string, permission: string)

  function DocumentPath(documentId: string, action: string): string
  {
    "/documents/" + documentId + "/" + action
  }

  /** The share modal of one card and the state behind it. A share link
      that a reply leaves `undefined` is held as "", as both are falsy
      everywhere the link is read. */
  class ShareModal {
    const documentId: string
    var isOpen: bool
    var shareEmail: string
    var emailPermission: Permission
    var linkPermission: Permission
    var shareLink: string
    var loadingEmail: bool
    var loadingLink: bool

    constructor (documentId: string)
      ensures this.documentId == documentId
      ensures !isOpen && shareEmail == "" && shareLink == ""
      ensures emailPermission == Viewer && linkPermission == Viewer
      ensures !loadingEmail && !loadingLink
    {
      this.documentId := documentId;
      isOpen := false;
      shareEmail := "";
      emailPermission := Viewer;
      linkPermission := Viewer;
      shareLink := "";
      loadingEmail := false;
      loadingLink := false;
    }

    /** `handleShareClick`: opens the modal with no link and no email. */
    method ShareClick()
      modifies this`isOpen, this`shareLink, this`shareEmail
      ensures isOpen && shareLink == "" && shareEmail == ""
    {
      shareLink := "";
      shareEmail := "";
      isOpen := true;
    }

    /** The modal's `onClose`. */
    method Close()
      modifies this`isOpen
      ensures !isOpen
    {
      isOpen := false;
    }

    /** Typing in the email field. */
    method EnterEmail(email: string)
      modifies this`shareEmail
      ensures shareEmail == email
    {
      shareEmail := email;
    }

    method ChooseEmailPermission(p: Permission)
      modifies this`emailPermission
      ensures emailPermission == p
    {
      emailPermission := p;
    }

    method ChooseLinkPermission(p: Permission)
      modifies this`linkPermission
      ensures linkPermission == p
    {
      linkPermission := p;
    }

    /** "Create Different Link": back to the generate form. */
    method CreateDifferentLink()
      modifies this`shareLink
      ensures shareLink == ""
    {
      shareLink := "";
    }

    /** `handleGenerateShareLink`, given the reply to its request. The link
        is replaced only by a successful reply; the loading flag is down
        again whatever the outcome. */
    method GenerateShareLink(response: Response<string>) returns (request: ShareLinkRequest, notice: Option<Notice>)
      modifies this`loadingLink, this`shareLink
      ensures request == ShareLinkRequest(DocumentPath(documentId, "share-link"), PermissionValue(linkPermission))
      ensures !loadingLink
      ensures shareLink == if response.Replied? && response.success then response.data else old(shareLink)
      ensures notice == match response
        case Failed => Some(Notice("Error", ErrorLevel))
        case Replied(true, _) => Some(Notice("Share link generated", SuccessLevel))
        case Replied(false, _) => None
    {
      loadingLink := true;
      request := ShareLinkRequest(DocumentPath(documentId, "share-link"), PermissionValue(linkPermission));
      notice := None;
      match response {
        case Failed =>
          notice := Some(Notice("Error", ErrorLevel));
        case Replied(success, link) =>
          if success {
            shareLink := link;
            notice := Some(Notice("Share link generated", SuccessLevel));
          }
      }
      loadingLink := false;
    }

    /** `handleSendEmailInvitation`, given the reply its request would get.
        An empty or malformed address is refused before any request and
        changes nothing. A successful reply clears the email field and
        shows the reply's link when it carries one. */
    method SendEmailInvitation(response: Response<string>) returns (request: Option<InvitationRequest>, notice: Option<Notice>)
      modifies this`loadingEmail, this`shareEmail, this`shareLink
      ensures old(shareEmail) == "" ==> notice == Some(Notice("Email required", WarningLevel))
      ensures old(shareEmail) != "" && !ValidEmail(old(shareEmail)) ==> notice == Some(Notice("Invalid email", ErrorLevel))
      ensures !ValidEmail(old(shareEmail)) ==>
        request == None && unchanged(this)
      ensures ValidEmail(old(shareEmail)) ==>
        && request == Some(InvitationRequest(DocumentPath(documentId, "send-invitation"), old(shareEmail), PermissionValue(emailPermission)))
        && !loadingEmail
        && var succeeded := response.Replied? && response.success;
        && shareEmail == (if succeeded then "" else old(shareEmail))
        && shareLink == (if succeeded && response.data != "" then response.data else old(shareLink))
        && notice == match response
             case Failed => Some(Notice("Error", ErrorLevel))
             case Replied(true, _) => Some(Notice("Invitation sent", SuccessLevel))
             case Replied(false, _) => None
    {
      if shareEmail == "" {
        return None, Some(Notice("Email required", WarningLevel));
      }
      if !ValidEmail(shareEmail) {
        return None, Some(Notice("Invalid email", ErrorLevel));
      }
      loadingEmail := true;
      request := Some(InvitationRequest(DocumentPath(documentId, "send-invitation"), shareEmail, PermissionValue(emailPermission)));
      notice := None;
      match response {
        case Failed =>
          notice := Some(Notice("Error", ErrorLevel));
        case Replied(success, link) =>
          if success {
            notice := Some(Notice("Invitation sent", SuccessLevel));
            shareEmail := "";
            if link != "" {
              shareLink := link;
            }
          }
      }
      loadingEmail := false;
    }
  }
}
