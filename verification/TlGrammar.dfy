/** The wire layouts that `src/core/tl_skip.c` walks, as data, and what it means to walk one.

    A `Layout` is the sequence of reads that follows an object's constructor word. Reads that
    the C code guards with a single length test are one `Word` step, because on a cursor that
    has overshot an unaligned buffer one guarded group and two guarded groups differ. */
module TlGrammar {
  import opened Bytes
  import opened TlCodec

  datatype Type =
    | AnyBool | Peer | NotificationSound | PeerNotifySettings
    | InputPeer | InputGeoPoint | InputPhoto | InputDocument | InputUser | InputGame | InputMedia
    | InputReplyTo | DraftMessage
    | Entity | InlineQueryPeerType | KeyboardButton | KeyboardButtonRow | ReplyMarkup
    | Reaction | ReactionCount | PeerReaction | Reactor | Reactions | Replies
    | TextWithEntities | FactCheck | FwdHeader | ReplyHeader
    | PhotoSize | Photo | StickerSet | MaskCoords | VideoSize | DocumentAttribute | Document | GeoPoint
    | RichText | PageCaption | PageListItem | PageListOrderedItem | PageTableCell | PageTableRow
    | PageRelatedArticle | PageBlock | Page
    | WallPaperSettings | WallPaper | BaseTheme | ThemeSettings | WebPageAttribute | WebPage
    | Poll | PollAnswer | PollAnswerVoters | PollResults | Game | ExtendedMedia | WebDocument
    | StoryFwdHeader | AreaCoordinates | GeoPointAddress | MediaArea | PrivacyRule | StoryViews
    | StoryItem | Media
    | ChatPhoto | UserProfilePhoto | UserStatus | RestrictionReason | Username | PeerColor | EmojiStatus
    | ChatAdminRights | ChatBannedRights | InputChannel | Chat | User
    | MessageAction | Message

  datatype Layout =
    | Stop                                             // nothing more
    | Reject                                           // constructor not known to the skipper
    | Word(n: nat, next: Layout)                       // n 32-bit words under one length test
    | Text(next: Layout)                               // TL string or bytes
    | Flags(next: Layout)                              // the flags word, remembered
    | Flags2(next: Layout)                             // the second flags word, remembered
    | Obj(ty: Type, next: Layout)                      // a nested object
    | Many(item: Layout, next: Layout)                 // Vector: header word, count, items
    | ManyMax(max: nat, item: Layout, next: Layout)    // the same, refused above max items
    | If(bit: nat, body: Layout, next: Layout)         // present when the flags bit is set
    | If2(bit: nat, body: Layout, next: Layout)        // present when the second word's bit is set

  /** `MEDIA_RECURSION_MAX` */
  const MEDIA_DEPTH := 4

  // ---- one step of each kind ----

  /** `if (r->len - r->pos < n) return -1;` followed by reads of those n bytes. On an
      overshot cursor the unsigned subtraction wraps, the test passes and the reads clamp. */
  function FixedEnd(d: bytes, p: nat, n: nat): (r: Option<nat>)
  {
    if p > |d| then Some(|d|) else if |d| - p < n then None else Some(p + n)
  }

  /** The item count of a vector whose header stands at `p`. */
  function VectorCount(d: bytes, p: nat): (r: Option<nat>)
    ensures r.Some? ==> p + 8 <= |d| && r.value < 0x1_0000_0000
  {
    if p + 8 > |d| || Word32(d, p) != VECTOR then None else Some(Word32(d, p + 4))
  }

  /** A field that is there only when its flag is set. */
  function Optional(on: bool, r: Option<nat>, p: nat): Option<nat> {
    if on then r else Some(p)
  }

  // ---- walking a layout ----

  /** Walk `lay` from `p`, with flag words `f` and `g`; nested objects are walked by `sub`. */
  function Run(lay: Layout, f: nat, g: nat, d: bytes, p: nat, sub: (Type, nat) -> Option<nat>): (r: Option<nat>)
    decreases lay, 0, 0
  {
    match lay
    case Stop => Some(p)
    case Reject => None
    case Word(n, next) =>
      (match FixedEnd(d, p, 4 * n) case None => None case Some(q) => Run(next, f, g, d, q, sub))
    case Text(next) =>
      (match StringEnd(d, p) case None => None case Some(q) => Run(next, f, g, d, q, sub))
    case Flags(next) =>
      (match FixedEnd(d, p, 4) case None => None case Some(q) => Run(next, Read32(d, p), g, d, q, sub))
    case Flags2(next) =>
      (match FixedEnd(d, p, 4) case None => None case Some(q) => Run(next, f, Read32(d, p), d, q, sub))
    case Obj(t, next) =>
      (match sub(t, p) case None => None case Some(q) => Run(next, f, g, d, q, sub))
    case Many(item, next) =>
      (match VectorEnd(item, 0xFFFF_FFFF, f, g, d, p, sub) case None => None case Some(q) => Run(next, f, g, d, q, sub))
    case ManyMax(max, item, next) =>
      (match VectorEnd(item, max, f, g, d, p, sub) case None => None case Some(q) => Run(next, f, g, d, q, sub))
    case If(k, body, next) =>
      (match Optional(Bit(f, k), Run(body, f, g, d, p, sub), p) case None => None case Some(q) =>
       Run(next, f, g, d, q, sub))
    case If2(k, body, next) =>
      (match Optional(Bit(g, k), Run(body, f, g, d, p, sub), p) case None => None case Some(q) =>
       Run(next, f, g, d, q, sub))
  }

  /** Walk a whole vector: header, count (refused above `max`) and items. */
  function VectorEnd(item: Layout, max: nat, f: nat, g: nat, d: bytes, p: nat,
                     sub: (Type, nat) -> Option<nat>): (r: Option<nat>)
    decreases item, 2, 0
  {
    match VectorCount(d, p)
    case None => None
    case Some(n) => if n > max then None else RunItems(item, n, f, g, d, p + 8, sub)
  }

  /** Walk `n` consecutive items. */
  function RunItems(item: Layout, n: nat, f: nat, g: nat, d: bytes, p: nat,
                    sub: (Type, nat) -> Option<nat>): (r: Option<nat>)
    decreases item, 1, n
  {
    if n == 0 then Some(p)
    else match Run(item, f, g, d, p, sub) case None => None case Some(q) => RunItems(item, n - 1, f, g, d, q, sub)
  }

  /** Skip one object of type `t` at `p`, with `depth` MessageMedia objects already open:
      None when the C function returns -1, otherwise the cursor it leaves. */
  function Skip(t: Type, d: bytes, p: nat, depth: nat): (r: Option<nat>)
    decreases if p <= |d| then |d| - p else 0, 1
  {
    if p >= |d| || |d| - p < 4 || (t == Media && depth >= MEDIA_DEPTH) then None
    else Run(Body(t, Word32(d, p)), 0, 0, d, p + 4, Below(d, p, if t == Media then depth + 1 else depth))
  }

  /** Skipping nested objects, restricted to positions after `p`. */
  function Below(d: bytes, p: nat, depth: nat): (Type, nat) -> Option<nat>
    requires p <= |d|
    decreases |d| - p, 0
  {
    (t, q) => if p < q <= |d| then Skip(t, d, q, depth) else None
  }

  // ---- the layouts, constructor by constructor ----

  function Body(t: Type, c: nat): Layout {
    match t
    case AnyBool => Stop
    case Peer => PeerBody(c)
    case NotificationSound => NotificationSoundBody(c)
    case PeerNotifySettings => PeerNotifySettingsBody(c)
    case InputPeer => InputPeerBody(c)
    case InputGeoPoint => InputGeoPointBody(c)
    case InputPhoto => InputPhotoBody(c)
    case InputDocument => InputDocumentBody(c)
    case InputUser => InputUserBody(c)
    case InputGame => InputGameBody(c)
    case InputMedia => InputMediaBody(c)
    case InputReplyTo => InputReplyToBody(c)
    case DraftMessage => DraftMessageBody(c)
    case Entity => EntityBody(c)
    case InlineQueryPeerType => InlineQueryPeerTypeBody(c)
    case KeyboardButton => KeyboardButtonBody(c)
    case KeyboardButtonRow => KeyboardButtonRowBody(c)
    case ReplyMarkup => ReplyMarkupBody(c)
    case Reaction => ReactionBody(c)
    case ReactionCount => ReactionCountBody(c)
    case PeerReaction => PeerReactionBody(c)
    case Reactor => ReactorBody(c)
    case Reactions => ReactionsBody(c)
    case Replies => RepliesBody(c)
    case TextWithEntities => TextWithEntitiesBody(c)
    case FactCheck => FactCheckBody(c)
    case FwdHeader => FwdHeaderBody(c)
    case ReplyHeader => ReplyHeaderBody(c)
    case PhotoSize => PhotoSizeBody(c)
    case Photo => PhotoBody(c)
    case StickerSet => StickerSetBody(c)
    case MaskCoords => MaskCoordsBody(c)
    case VideoSize => VideoSizeBody(c)
    case DocumentAttribute => DocumentAttributeBody(c)
    case Document => DocumentBody(c)
    case GeoPoint => GeoPointBody(c)
    case RichText => RichTextBody(c)
    case PageCaption => PageCaptionBody(c)
    case PageListItem => PageListItemBody(c)
    case PageListOrderedItem => PageListOrderedItemBody(c)
    case PageTableCell => PageTableCellBody(c)
    case PageTableRow => PageTableRowBody(c)
    case PageRelatedArticle => PageRelatedArticleBody(c)
    case PageBlock => PageBlockBody(c)
    case Page => PageBody(c)
    case WallPaperSettings => WallPaperSettingsBody(c)
    case WallPaper => WallPaperBody(c)
    case BaseTheme => BaseThemeBody(c)
    case ThemeSettings => ThemeSettingsBody(c)
    case WebPageAttribute => WebPageAttributeBody(c)
    case WebPage => WebPageBody(c)
    case Poll => PollBody(c)
    case PollAnswer => PollAnswerBody(c)
    case PollAnswerVoters => PollAnswerVotersBody(c)
    case PollResults => PollResultsBody(c)
    case Game => GameBody(c)
    case ExtendedMedia => ExtendedMediaBody(c)
    case WebDocument => WebDocumentBody(c)
    case StoryFwdHeader => StoryFwdHeaderBody(c)
    case AreaCoordinates => AreaCoordinatesBody(c)
    case GeoPointAddress => GeoPointAddressBody(c)
    case MediaArea => MediaAreaBody(c)
    case PrivacyRule => PrivacyRuleBody(c)
    case StoryViews => StoryViewsBody(c)
    case StoryItem => StoryItemBody(c)
    case Media => MediaBody(c)
    case ChatPhoto => ChatPhotoBody(c)
    case UserProfilePhoto => UserProfilePhotoBody(c)
    case UserStatus => UserStatusBody(c)
    case RestrictionReason => RestrictionReasonBody(c)
    case Username => UsernameBody(c)
    case PeerColor => PeerColorBody(c)
    case EmojiStatus => EmojiStatusBody(c)
    case ChatAdminRights => ChatAdminRightsBody(c)
    case ChatBannedRights => ChatBannedRightsBody(c)
    case InputChannel => InputChannelBody(c)
    case Chat => ChatBody(c)
    case User => UserBody(c)
    case MessageAction => MessageActionBody(c)
    case Message => MessageBody(c)
  }

  function PeerBody(c: nat): Layout {
    if c == 0x59511722 || c == 0x36c6019a || c == 0xa2a5371e then Word(2, Stop) else Reject
  }

  function NotificationSoundBody(c: nat): Layout {
    if c == 0x97e8bebe || c == 0x6f0c34df then Stop
    else if c == 0xff6c8049 then Word(2, Stop)
    else if c == 0x830b9ae4 then Text(Text(Stop))
    else Reject
  }

  function PeerNotifySettingsBody(c: nat): Layout {
    if c == 0xa83b0426 || c == 0x99622c0c then
      Flags(If(0, Obj(AnyBool, Stop), If(1, Obj(AnyBool, Stop), If(2, Word(1, Stop),
        If(3, Obj(NotificationSound, Stop), If(4, Obj(NotificationSound, Stop), If(5, Obj(NotificationSound, Stop),
        If(6, Obj(AnyBool, Stop), If(7, Obj(AnyBool, Stop), If(8, Obj(NotificationSound, Stop),
        If(9, Obj(NotificationSound, Stop), If(10, Obj(NotificationSound, Stop), Stop))))))))))))
    else Reject
  }

  function InputGeoPointBody(c: nat): Layout {
    if c == 0xe4c123d6 then Stop
    else if c == 0xf3b7acc9 then Flags(Word(4, If(0, Word(1, Stop), Stop)))
    else Reject
  }

  function InputPhotoBody(c: nat): Layout {
    if c == 0x1cd7bf0d then Word(2, Stop) else if c == 0x3bb3b94a then Word(4, Text(Stop)) else Reject
  }

  function InputDocumentBody(c: nat): Layout {
    if c == 0x72f0eafa then Word(2, Stop) else if c == 0x1abfb575 then Word(4, Text(Stop)) else Reject
  }

  function InputUserBody(c: nat): Layout {
    if c == 0xb98886cf || c == 0xf7c1b13f then Stop
    else if c == 0xf21158c6 then Word(4, Stop)
    else if c == 0x1da448e2 then Obj(InputPeer, Word(3, Stop))
    else Reject
  }

  function InputGameBody(c: nat): Layout {
    if c == 0x032c3e77 then Word(4, Stop)
    else if c == 0xc331e80a then Obj(InputUser, Text(Stop))
    else Reject
  }

  function InputReplyToBody(c: nat): Layout {
    if c == 0x3faad5f0 then
      Flags(Word(1, If(0, Word(1, Stop), If(1, Obj(InputPeer, Stop), If(2, Text(Stop),
        If(3, Many(Obj(Entity, Stop), Stop), If(4, Word(1, Stop), Stop)))))))
    else if c == 0x7e2a9a7b then Obj(InputPeer, Word(1, Stop))
    else Reject
  }

  function DraftMessageBody(c: nat): Layout {
    if c == 0x1b0c841a then Flags(If(0, Word(1, Stop), Stop))
    else if c == 0x3fccf7ef then
      Flags(If(4, Obj(InputReplyTo, Stop),
               Text(If(3, Many(Obj(Entity, Stop), Stop), If(5, Obj(InputMedia, Stop), Word(1, Stop))))))
    else Reject
  }

  function InlineQueryPeerTypeBody(c: nat): Layout {
    if c == 0x3081ed9d || c == 0x833c0fac || c == 0xd766c50a || c == 0x5bc52d1a || c == 0x6d1ded88 || c == 0xe3b2a56a
    then Stop else Reject
  }

  function KeyboardButtonRowBody(c: nat): Layout {
    if c == 0x77608b83 then Many(Obj(KeyboardButton, Stop), Stop) else Reject
  }

  function ReplyMarkupBody(c: nat): Layout {
    if c == 0xa03e5b85 then Flags(Stop)
    else if c == 0x86b40b08 then Flags(If(3, Text(Stop), Stop))
    else if c == 0x85dd99d1 then Flags(Many(Obj(KeyboardButtonRow, Stop), If(3, Text(Stop), Stop)))
    else if c == 0x48a30254 then Many(Obj(KeyboardButtonRow, Stop), Stop)
    else Reject
  }

  function ReactionBody(c: nat): Layout {
    if c == 0x79f5d419 || c == 0x523da4eb then Stop
    else if c == 0x1b2286b8 then Text(Stop)
    else if c == 0x8935fc73 then Word(2, Stop)
    else Reject
  }

  function ReactionCountBody(c: nat): Layout {
    if c == 0xa3d1cb80 then Flags(If(0, Word(1, Stop), Obj(Reaction, Word(1, Stop)))) else Reject
  }

  function PeerReactionBody(c: nat): Layout {
    if c == 0xb156fe9d then Word(1, Obj(Reaction, Word(1, Obj(Peer, Stop)))) else Reject
  }

  function ReactorBody(c: nat): Layout {
    if c == 0xedd1b4ad then Flags(If(3, Obj(Peer, Stop), Word(2, Stop))) else Reject
  }

  function ReactionsBody(c: nat): Layout {
    if c == 0x4f2b9479 then
      Flags(Many(Obj(ReactionCount, Stop),
                 If(1, Many(Obj(PeerReaction, Stop), Stop), If(2, Many(Obj(Reactor, Stop), Stop), Stop))))
    else Reject
  }

  function RepliesBody(c: nat): Layout {
    if c == 0x83d60fc2 then
      Flags(Word(2,
                 If(1, Many(Obj(Peer, Stop), Stop),
                    If(0, Word(2, Stop), If(2, Word(1, Stop), If(3, Word(1, Stop), Stop))))))
    else Reject
  }

  function TextWithEntitiesBody(c: nat): Layout {
    if c == 0x751f3146 then Text(Many(Obj(Entity, Stop), Stop)) else Reject
  }

  function FactCheckBody(c: nat): Layout {
    if c == 0xb89bfccf then Flags(If(1, Text(Obj(TextWithEntities, Stop)), Word(2, Stop))) else Reject
  }

  function FwdHeaderBody(c: nat): Layout {
    if c == 0x4e4df4bb then
      Flags(If(0, Obj(Peer, Stop), If(5, Text(Stop), Word(1, If(2, Word(1, Stop), If(3, Text(Stop),
        If(4, Obj(Peer, Word(1, Stop)),
           If(8, Obj(Peer, Stop), If(9, Text(Stop), If(10, Word(1, Stop), If(6, Text(Stop), Stop)))))))))))
    else Reject
  }

  function PhotoBody(c: nat): Layout {
    if c == 0x2331b22d then Word(2, Stop)
    else if c == 0xfb197a65 then
      Flags(Word(4, Text(Word(1, Many(Obj(PhotoSize, Stop), If(1, Many(Obj(VideoSize, Stop), Stop), Word(1, Stop)))))))
    else Reject
  }

  function StickerSetBody(c: nat): Layout {
    if c == 0xffb62b95 || c == 0x028703c8 || c == 0x0cde3739 || c == 0xc88b3b02 || c == 0x04c4d4ce
       || c == 0x29d0f5ee || c == 0x44c1f8e9 || c == 0x49748553 then Stop
    else if c == 0x9de7a269 then Word(4, Stop)
    else if c == 0x861cc8a0 || c == 0xe67f520e then Text(Stop)
    else Reject
  }

  function MaskCoordsBody(c: nat): Layout {
    if c == 0xaed6dbb2 then Word(7, Stop) else Reject
  }

  function VideoSizeBody(c: nat): Layout {
    if c == 0xde33b094 then Flags(Text(Word(3, If(0, Word(2, Stop), Stop))))
    else if c == 0xf85c413c then Word(2, Many(Word(1, Stop), Stop))
    else if c == 0x0da082fe then Obj(StickerSet, Word(2, Many(Word(1, Stop), Stop)))
    else Reject
  }

  function DocumentBody(c: nat): Layout {
    if c == 0x36f8c871 then Word(2, Stop)
    else if c == 0x8fd4c4d8 then
      Flags(Word(4, Text(Word(1, Text(Word(2,
        If(0, Many(Obj(PhotoSize, Stop), Stop), If(1, Many(Obj(VideoSize, Stop), Stop),
        Word(1, Many(Obj(DocumentAttribute, Stop), Stop))))))))))
    else Reject
  }

  function GeoPointBody(c: nat): Layout {
    if c == 0x1117dd5f then Stop
    else if c == 0xb2a2f663 then Flags(Word(6, If(0, Word(1, Stop), Stop)))
    else Reject
  }

  function PageCaptionBody(c: nat): Layout {
    if c == 0x6f747657 then Obj(RichText, Obj(RichText, Stop)) else Reject
  }

  function PageListItemBody(c: nat): Layout {
    if c == 0xb92fb6cd then Obj(RichText, Stop)
    else if c == 0x25e073fc then Many(Obj(PageBlock, Stop), Stop)
    else Reject
  }

  function PageListOrderedItemBody(c: nat): Layout {
    if c == 0x5e068047 then Text(Obj(RichText, Stop))
    else if c == 0x98dd8936 then Text(Many(Obj(PageBlock, Stop), Stop))
    else Reject
  }

  function PageTableCellBody(c: nat): Layout {
    if c == 0x34566b6a then Flags(If(7, Obj(RichText, Stop), If(1, Word(1, Stop), If(2, Word(1, Stop), Stop))))
    else Reject
  }

  function PageTableRowBody(c: nat): Layout {
    if c == 0xe0c0c5e5 then Many(Obj(PageTableCell, Stop), Stop) else Reject
  }

  function PageRelatedArticleBody(c: nat): Layout {
    if c == 0xb390dc08 then
      Flags(Text(Word(2,
                      If(0, Text(Stop),
                         If(1, Text(Stop), If(2, Word(2, Stop), If(3, Text(Stop), If(4, Word(1, Stop), Stop))))))))
    else Reject
  }

  function PageBody(c: nat): Layout {
    if c == 0x98657f0d then
      Flags(Text(Many(Obj(PageBlock, Stop),
                      Many(Obj(Photo, Stop), Many(Obj(Document, Stop), If(3, Word(1, Stop), Stop))))))
    else Reject
  }

  function WallPaperSettingsBody(c: nat): Layout {
    if c == 0x372efcd0 then
      Flags(If(0, Word(1, Stop), If(4, Word(1, Stop), If(5, Word(1, Stop), If(6, Word(1, Stop),
        If(3, Word(1, Stop), If(7, Word(1, Stop), If(8, Text(Stop), Stop))))))))
    else Reject
  }

  function WallPaperBody(c: nat): Layout {
    if c == 0xa437c3ed then
      Word(4, Text(Text(Obj(WallPaperSettings, Flags(If(2, Obj(Document, Stop), Stop))))))
    else if c == 0xe0804116 then Word(2, Flags(If(2, Obj(WallPaperSettings, Stop), Stop)))
    else Reject
  }

  function BaseThemeBody(c: nat): Layout {
    if c == 0xc3a12462 || c == 0xfbd81688 || c == 0xb7b31ea8 || c == 0x6d5f77ee || c == 0x5b11125a then Stop else Reject
  }

  function ThemeSettingsBody(c: nat): Layout {
    if c == 0xfa58b6d4 then
      Flags(Obj(BaseTheme, Word(1, If(0, Word(2, Stop), If(3, Word(1, Stop), If(1, Many(Word(1, Stop), Stop),
        If(2, Obj(WallPaper, Stop), Stop)))))))
    else Reject
  }

  function WebPageAttributeBody(c: nat): Layout {
    if c == 0x54b56617 then Flags(If(0, Many(Obj(Document, Stop), Stop), If(1, Obj(ThemeSettings, Stop), Stop)))
    else if c == 0x2e94c3e7 then Flags(Obj(Peer, Word(1, If(0, Obj(StoryItem, Stop), Stop))))
    else if c == 0x50cc03d3 then Word(1, Many(Obj(Document, Stop), Stop))
    else Reject
  }

  function PollBody(c: nat): Layout {
    if c == 0x58747131 then
      Flags(Word(2,
                 Obj(TextWithEntities, Many(Obj(PollAnswer, Stop), If(4, Word(1, Stop), If(5, Word(1, Stop), Stop))))))
    else Reject
  }

  function PollAnswerBody(c: nat): Layout {
    if c == 0x6ca9c2e9 then Obj(TextWithEntities, Text(Stop)) else Reject
  }

  function PollAnswerVotersBody(c: nat): Layout {
    if c == 0x3b6ddad2 then Word(1, Text(Word(1, Stop))) else Reject
  }

  function PollResultsBody(c: nat): Layout {
    if c == 0x7adc669d then
      Flags(If(1, Many(Obj(PollAnswerVoters, Stop), Stop), If(2, Word(1, Stop), If(3, Many(Obj(Peer, Stop), Stop),
        If(4, Text(Many(Obj(Entity, Stop), Stop)), Stop)))))
    else Reject
  }

  function GameBody(c: nat): Layout {
    if c == 0xbdf9653b then Flags(Word(4, Text(Text(Text(Obj(Photo, If(0, Obj(Document, Stop), Stop))))))) else Reject
  }

  function ExtendedMediaBody(c: nat): Layout {
    if c == 0xad628cc8 then Flags(If(0, Word(2, Stop), If(1, Obj(PhotoSize, Stop), If(2, Word(1, Stop), Stop))))
    else if c == 0xee479c64 then Obj(Media, Stop)
    else Reject
  }

  function WebDocumentBody(c: nat): Layout {
    if c == 0x1c570ed1 then Text(Word(2, Word(1, Text(Many(Obj(DocumentAttribute, Stop), Stop)))))
    else if c == 0xf9c8bcc6 then Text(Word(1, Text(Many(Obj(DocumentAttribute, Stop), Stop))))
    else Reject
  }

  function StoryFwdHeaderBody(c: nat): Layout {
    if c == 0xb826e150 then Flags(If(0, Obj(Peer, Stop), If(1, Text(Stop), If(2, Word(1, Stop), Stop)))) else Reject
  }

  function AreaCoordinatesBody(c: nat): Layout {
    if c == 0x03d1ea4e then Flags(Word(10, If(0, Word(2, Stop), Stop))) else Reject
  }

  function GeoPointAddressBody(c: nat): Layout {
    if c == 0xde4c5d93 then Flags(Text(If(0, Text(Stop), If(1, Text(Stop), If(2, Text(Stop), Stop))))) else Reject
  }

  function PrivacyRuleBody(c: nat): Layout {
    if c == 0xfffe1bac || c == 0x65427b82 || c == 0xf888fa1a || c == 0x8b73e763 || c == 0xf7e8d89b
       || c == 0xece9814b || c == 0x21461b5d || c == 0xf6a5f82f then Stop
    else if c == 0xb8905fb2 || c == 0xe4621141 || c == 0x6b134e8e || c == 0x41c87565 then Many(Word(2, Stop), Stop)
    else Reject
  }

  function StoryViewsBody(c: nat): Layout {
    if c == 0x8d595cd6 then
      Flags(Word(1, If(2, Word(1, Stop), If(3, Many(Obj(ReactionCount, Stop), Stop), If(4, Word(1, Stop),
        If(0, Many(Word(2, Stop), Stop), Stop))))))
    else Reject
  }

  function ChatPhotoBody(c: nat): Layout {
    if c == 0x37c1011c then Stop
    else if c == 0x1c6e1c11 then Flags(Word(2, If(1, Text(Stop), Word(1, Stop))))
    else Reject
  }

  function UserProfilePhotoBody(c: nat): Layout {
    if c == 0x4f11bae1 then Stop
    else if c == 0x82d1f706 then Flags(Word(2, If(1, Text(Stop), Word(1, Stop))))
    else Reject
  }

  function UserStatusBody(c: nat): Layout {
    if c == 0x09d05049 then Stop
    else if c == 0xedb93949 || c == 0x008c703f || c == 0x7b197dc8 || c == 0x541a1d1a
        || c == 0x65899e67 then Word(1, Stop)
    else Reject
  }

  function RestrictionReasonBody(c: nat): Layout {
    if c == 0xd072acb4 then Text(Text(Text(Stop))) else Reject
  }

  function UsernameBody(c: nat): Layout {
    if c == 0xb4073647 then Word(1, Text(Stop)) else Reject
  }

  function PeerColorBody(c: nat): Layout {
    if c == 0xb54b5acf then Flags(If(0, Word(1, Stop), If(1, Word(2, Stop), Stop))) else Reject
  }

  function EmojiStatusBody(c: nat): Layout {
    if c == 0x2de11aae then Stop
    else if c == 0x929b619d then Word(2, Stop)
    else if c == 0xfa30a8c7 then Word(3, Stop)
    else Reject
  }

  function ChatAdminRightsBody(c: nat): Layout {
    if c == 0x5fb224d5 then Word(1, Stop) else Reject
  }

  function ChatBannedRightsBody(c: nat): Layout {
    if c == 0x9f120418 then Word(2, Stop) else Reject
  }

  function InputChannelBody(c: nat): Layout {
    if c == 0xee8c1e86 then Stop else if c == 0xf35aec28 || c == 0x5b934f9d then Word(4, Stop) else Reject
  }

  function InputPeerBody(c: nat): Layout {
    if c == 0x7f3b18ea || c == 0x7da07ec9 then Stop
    else if c == 0x7b8e7de6 || c == 0x27bcbbfc then Word(4, Stop)
    else if c == 0x35a95cb9 then Word(2, Stop)
    else if c == 0xa87b0a1c || c == 0xbd2a0840 then Obj(InputPeer, Word(3, Stop))
    else Reject
  }

  function InputMediaBody(c: nat): Layout {
    if c == 0x9664f57f then Stop
    else if c == 0xb3ba0635 then Flags(Obj(InputPhoto, If(0, Word(1, Stop), Stop)))
    else if c == 0xf9c44144 then Obj(InputGeoPoint, Stop)
    else if c == 0xf8ab7dfb then Text(Text(Text(Text(Stop))))
    else if c == 0x33473058 then Flags(Obj(InputDocument, If(0, Word(1, Stop), If(1, Text(Stop), Stop))))
    else if c == 0xc13d1c11 then Obj(InputGeoPoint, Text(Text(Text(Text(Text(Stop))))))
    else if c == 0x971fa843 then Flags(Obj(InputGeoPoint, If(2, Word(1, Stop), Word(1, If(3, Word(1, Stop), Stop)))))
    else if c == 0xd33f43f3 then Obj(InputGame, Stop)
    else if c == 0xe66fbf7b then Text(Stop)
    else if c == 0x89fdd778 then Obj(InputPeer, Word(1, Stop))
    else if c == 0xc21b8849 then Flags(Text(If(4, Text(Stop), Stop)))
    else if c == 0x261e868f then
      Flags(Obj(Poll, If(0, Many(Text(Stop), Stop), If(1, Text(Stop), If(2, Many(Obj(Entity, Stop), Stop), Stop)))))
    else if c == 0x6519cb78 then Word(2, Many(Obj(InputMedia, Stop), Stop))
    else if c == 0xe5bbfe1a || c == 0xfb52dc99 then Flags(Text(If(0, Word(1, Stop), Stop)))
    else Reject
  }

  function EntityBody(c: nat): Layout {
    if c == 0xbb92ba95 || c == 0xfa04579d || c == 0x6f635b0d || c == 0x6cef8ac7 || c == 0x6ed02538
       || c == 0x64e475c2 || c == 0xbd610bc9 || c == 0x826f8b60 || c == 0x28a20571 || c == 0x9b69e34b
       || c == 0x4c4e743f || c == 0x9c4e7e8b || c == 0xbf0693d4 || c == 0x761e6af4 || c == 0x32ca960f then Word(2, Stop)
    else if c == 0x73924be0 || c == 0x76a6d327 then Word(2, Text(Stop))
    else if c == 0xdc7b1140 || c == 0xc8cf05f8 then Word(4, Stop)
    else if c == 0xf1ccaaac then Word(3, Stop)
    else Reject
  }

  function KeyboardButtonBody(c: nat): Layout {
    if c == 0xa2fa4880 || c == 0xb16a6c29 || c == 0xfc796b3f || c == 0x50f41ccf || c == 0xafd93fbb then Text(Stop)
    else if c == 0x258aff05 || c == 0x13767230 || c == 0xa0c0505c then Text(Text(Stop))
    else if c == 0x35bbdb6b then Word(1, Text(Text(Stop)))
    else if c == 0x93b9fbb5 then Flags(Text(Text(If(1, Many(Obj(InlineQueryPeerType, Stop), Stop), Stop))))
    else if c == 0x10b78d29 then Flags(Text(If(0, Text(Stop), Text(Word(1, Stop)))))
    else if c == 0xbbc7515d then Flags(If(0, Word(1, Stop), Text(Stop)))
    else if c == 0x308660c1 then Text(Word(2, Stop))
    else Reject
  }

  function ReplyHeaderBody(c: nat): Layout {
    if c == 0xe5af939 then Obj(Peer, Word(1, Stop))
    else if c == 0xafbc09db then
      Flags(If(4, Word(1, Stop), If(0, Obj(Peer, Stop), If(5, Obj(FwdHeader, Stop), If(8, Obj(Media, Stop),
        If(1, Word(1, Stop), If(6, Text(Stop), If(7, Many(Obj(Entity, Stop), Stop), If(10, Word(1, Stop), Stop)))))))))
    else Reject
  }

  function PhotoSizeBody(c: nat): Layout {
    if c == 0x0e17e23c then Text(Stop)
    else if c == 0x75c78e60 then Text(Word(3, Stop))
    else if c == 0x021e1ad6 then Text(Word(2, Text(Stop)))
    else if c == 0xe0b0bc2e || c == 0xd8214d41 then Text(Text(Stop))
    else if c == 0xfa3efb95 then Text(Word(2, Many(Word(1, Stop), Stop)))
    else Reject
  }

  function DocumentAttributeBody(c: nat): Layout {
    if c == 0x6c37c15c then Word(2, Stop)
    else if c == 0x11b58939 || c == 0x9801d2f7 then Stop
    else if c == 0x15590068 then Text(Stop)
    else if c == 0x43c57c48 then Flags(Word(4, If(2, Word(1, Stop), If(4, Word(2, Stop), If(5, Text(Stop), Stop)))))
    else if c == 0x9852f9c6 then Flags(Word(1, If(0, Text(Stop), If(1, Text(Stop), If(2, Text(Stop), Stop)))))
    else if c == 0x6319d612 then Flags(Text(Obj(StickerSet, If(0, Obj(MaskCoords, Stop), Stop))))
    else if c == 0xfd149899 then Word(1, Text(Obj(StickerSet, Stop)))
    else Reject
  }

  function RichTextBody(c: nat): Layout {
    if c == 0xdc3d824f then Stop
    else if c == 0x744694e0 then Text(Stop)
    else if c == 0x6724abc4 || c == 0xd912a59c || c == 0xc12622c4 || c == 0x9bf8bb95 || c == 0x6c3f19b9
         || c == 0xed6a8504 || c == 0xc7fb5e01 || c == 0x034b27f6 then Obj(RichText, Stop)
    else if c == 0x3c2884c1 then Obj(RichText, Text(Word(2, Stop)))
    else if c == 0xde5a0dd6 || c == 0x1ccb966a || c == 0x35553762 then Obj(RichText, Text(Stop))
    else if c == 0x7e6260d7 then Many(Obj(RichText, Stop), Stop)
    else if c == 0x081ccf4f then Word(4, Stop)
    else Reject
  }

  function PageBlockBody(c: nat): Layout {
    if c == 0x13567e8a || c == 0xdb20b188 then Stop
    else if c == 0x70abc3fd || c == 0x8ffa9a1f || c == 0xbfd064ec || c == 0xf12bb6e1 || c == 0x1e148390
         || c == 0x467a0766 || c == 0x48870999 then Obj(RichText, Stop)
    else if c == 0xce0d37b0 then Text(Stop)
    else if c == 0xc070d93e then Obj(RichText, Text(Stop))
    else if c == 0xbaafe5e0 then Obj(RichText, Word(1, Stop))
    else if c == 0x263d7c26 || c == 0x4f4456d5 then Obj(RichText, Obj(RichText, Stop))
    else if c == 0x1759c560 then Flags(Word(2, Obj(PageCaption, If(0, Text(Word(2, Stop)), Stop))))
    else if c == 0x7c8fe7b6 then Word(3, Obj(PageCaption, Stop))
    else if c == 0x804361ea then Word(2, Obj(PageCaption, Stop))
    else if c == 0x39f23300 then Obj(PageBlock, Stop)
    else if c == 0xef1751b5 then Obj(Chat, Stop)
    else if c == 0xa44f3ef6 then Obj(GeoPoint, Word(3, Obj(PageCaption, Stop)))
    else if c == 0xe4e88011 then Many(Obj(PageListItem, Stop), Stop)
    else if c == 0x9a8ae1e1 then Many(Obj(PageListOrderedItem, Stop), Stop)
    else if c == 0x65a0fa4d || c == 0x031f9590 then Many(Obj(PageBlock, Stop), Obj(PageCaption, Stop))
    else if c == 0x76768bed then Word(1, Many(Obj(PageBlock, Stop), Obj(RichText, Stop)))
    else if c == 0x16115a96 then Obj(RichText, Many(Obj(PageRelatedArticle, Stop), Stop))
    else if c == 0xbf4dea82 then Word(1, Obj(RichText, Many(Obj(PageTableRow, Stop), Stop)))
    else if c == 0xa8718dc5 then
      Flags(If(1, Text(Stop), If(2, Text(Stop), If(4, Word(2, Stop), If(5, Word(2, Stop), Obj(PageCaption, Stop))))))
    else if c == 0xf259a80b then Text(Word(4, Text(Word(1, Many(Obj(PageBlock, Stop), Obj(PageCaption, Stop))))))
    else Reject
  }

  function WebPageBody(c: nat): Layout {
    if c == 0xeb1477e8 then Flags(Word(2, If(0, Text(Stop), Stop)))
    else if c == 0xb0d13e47 then Flags(Word(2, If(0, Text(Stop), Word(1, Stop))))
    else if c == 0x7311ca11 then Flags(If(0, Word(1, Stop), Stop))
    else if c == 0xe89c45b2 then
      Flags(Word(2, Text(Text(Word(1, If(0, Text(Stop), If(1, Text(Stop), If(2, Text(Stop), If(3, Text(Stop),
        If(4, Obj(Photo, Stop), If(5, Text(Text(Stop)), If(6, Word(2, Stop), If(7, Word(1, Stop), If(8, Text(Stop),
        If(9, Obj(Document, Stop),
           If(10, Obj(Page, Stop), If(12, Many(Obj(WebPageAttribute, Stop), Stop), Stop)))))))))))))))))
    else Reject
  }

  function MediaAreaBody(c: nat): Layout {
    if c == 0xbe82db9c then Obj(AreaCoordinates, Obj(GeoPoint, Text(Text(Text(Text(Text(Stop)))))))
    else if c == 0xdf8b3b22 then Flags(Obj(AreaCoordinates, Obj(GeoPoint, If(0, Obj(GeoPointAddress, Stop), Stop))))
    else if c == 0x14455871 then Word(1, Obj(AreaCoordinates, Obj(Reaction, Stop)))
    else if c == 0x770416af then Obj(AreaCoordinates, Word(3, Stop))
    else if c == 0x37381085 || c == 0x5787686d then Obj(AreaCoordinates, Text(Stop))
    else if c == 0x49a6549c then Obj(AreaCoordinates, Text(Word(3, Stop)))
    else Reject
  }

  function StoryItemBody(c: nat): Layout {
    if c == 0x51e6ee4f then Word(1, Stop)
    else if c == 0xffadc913 then Word(1, Word(3, Stop))
    else if c == 0x79b26a24 then
      Flags(Word(2, If(18, Obj(Peer, Stop), If(17, Obj(StoryFwdHeader, Stop), Word(1, If(0, Text(Stop),
        If(1, Many(Obj(Entity, Stop), Stop), Obj(Media, If(14, Many(Obj(MediaArea, Stop), Stop),
        If(2, Many(Obj(PrivacyRule, Stop), Stop),
           If(3, Obj(StoryViews, Stop), If(15, Obj(Reaction, Stop), Stop))))))))))))
    else Reject
  }

  function MediaBody(c: nat): Layout {
    if c == 0x3ded6320 || c == 0x9f84f49e then Stop
    else if c == 0x56e0d474 then Obj(GeoPoint, Stop)
    else if c == 0x70322949 then Text(Text(Text(Text(Word(2, Stop)))))
    else if c == 0x2ec0533f then Obj(GeoPoint, Text(Text(Text(Text(Text(Stop))))))
    else if c == 0xb940c666 then Flags(Obj(GeoPoint, If(0, Word(1, Stop), Word(1, If(1, Word(1, Stop), Stop)))))
    else if c == 0x3f7ee58b then Word(1, Text(Stop))
    else if c == 0x695150d7 then Flags(If(0, Obj(Photo, Stop), If(2, Word(1, Stop), Stop)))
    else if c == 0xddf8c26e then Word(1, Obj(WebPage, Stop))
    else if c == 0x4bd6e798 then Obj(Poll, Obj(PollResults, Stop))
    else if c == 0xf6a548d3 then
      Flags(Text(Text(If(0, Obj(WebDocument, Stop),
                         If(2, Word(1, Stop), Text(Word(2, Text(If(4, Obj(ExtendedMedia, Stop), Stop)))))))))
    else if c == 0x68cb6283 then Flags(Obj(Peer, Word(1, If(0, Obj(StoryItem, Stop), Stop))))
    else if c == 0xaa073bee then
      Flags(Many(Word(2, Stop),
                 If(1, Many(Text(Stop), Stop),
                    If(3, Text(Stop), Word(1, If(4, Word(1, Stop), If(5, Word(2, Stop), Word(1, Stop))))))))
    else if c == 0xfdb19008 then Obj(Game, Stop)
    else if c == 0xa8852491 then Word(2, Many(Obj(ExtendedMedia, Stop), Stop))
    else if c == 0x4cf4d72d then
      Flags(If(0, Obj(Document, Stop), If(2, Word(1, Stop), If(10, Many(Obj(Document, Stop), Stop), Stop))))
    else Reject
  }

  function ChannelEnding(): Layout {
    If2(0, Many(Obj(Username, Stop), Stop), If2(4, Word(1, Stop),
      If2(7, Obj(PeerColor, Stop), If2(8, Obj(PeerColor, Stop),
      If2(9, Obj(EmojiStatus, Stop), If2(10, Word(1, Stop), If2(11, Word(1, Stop), Stop)))))))
  }

  function ChatBody(c: nat): Layout {
    if c == 0x29562865 then Word(2, Stop)
    else if c == 0x6592a1a7 then Word(2, Text(Stop))
    else if c == 0x41cbf256 then
      Flags(If(6, Obj(InputChannel, Stop), Word(2, Text(Obj(ChatPhoto, Word(3,
        If(14, Obj(ChatAdminRights, Stop), If(18, Obj(ChatBannedRights, Stop), Stop))))))))
    else if c == 0x17d493d5 then Flags(Word(4, Text(If(16, Word(1, Stop), Stop))))
    else if c == 0x0aadfc8f then
      Flags(Flags2(Word(2, If(13, Word(2, Stop), Text(If(6, Text(Stop), Obj(ChatPhoto, Word(1,
        If(9, Many(Obj(RestrictionReason, Stop), Stop),
           If(14, Obj(ChatAdminRights, Stop), If(15, Obj(ChatBannedRights, Stop),
        If(18, Obj(ChatBannedRights, Stop), If(17, Word(1, Stop), ChannelEnding())))))))))))))
    else Reject
  }

  function UserBody(c: nat): Layout {
    if c == 0xd3bc4b7a then Word(2, Stop)
    else if c == 0x3ff6ecb0 || c == 0x83314fca then
      Flags(Flags2(Word(2, If(0, Word(2, Stop), If(1, Text(Stop), If(2, Text(Stop), If(3, Text(Stop), If(4, Text(Stop),
        If(5, Obj(UserProfilePhoto, Stop), If(6, Obj(UserStatus, Stop), If(14, Word(1, Stop),
        If(18, Many(Obj(RestrictionReason, Stop), Stop),
           If(19, Text(Stop), If(22, Text(Stop), If(30, Obj(EmojiStatus, Stop),
        If2(0, Many(Obj(Username, Stop), Stop),
            If2(5, Word(1, Stop), If2(8, Obj(PeerColor, Stop), If2(9, Obj(PeerColor, Stop),
        If2(12, Word(1, Stop), Stop))))))))))))))))))))
    else Reject
  }

  function MessageActionBody(c: nat): Layout {
    if c == 0xb6aef7b0 || c == 0x95e3fbef || c == 0x94bd38ed || c == 0x9fbab604 || c == 0x4792929b
       || c == 0x9244c2ad || c == 0xb4c38cb5 then Stop
    else if c == 0xb5a1ce5a || c == 0x95d2ac92 || c == 0xfae69f56 then Text(Stop)
    else if c == 0xa43f30cc || c == 0xe1037f92 || c == 0x031224c3 then Word(2, Stop)
    else if c == 0xbd47cbad then Text(ManyMax(4096, Word(2, Stop), Stop))
    else if c == 0x15cefd00 then ManyMax(4096, Word(2, Stop), Stop)
    else if c == 0xea3948e9 then Text(Word(2, Stop))
    else if c == 0x7fcb13a8 then Obj(Photo, Stop)
    else if c == 0x80e11a7f then Flags(Word(2, If(0, Word(1, Stop), If(1, Word(1, Stop), Stop))))
    else if c == 0x7a0d7f42 then Flags(Word(5, If(0, Word(1, Stop), Stop)))
    else if c == 0xb3a07661 then Word(6, Stop)
    else if c == 0x502f92f7 then Word(5, ManyMax(4096, Word(2, Stop), Stop))
    else Reject
  }

  /** Everything after `message:string` in a Message, from the media on. */
  function MessageTail(): Layout {
    If(9, Obj(Media, Stop), AfterMedia())
  }

  function AfterMedia(): Layout {
    If(6, Obj(ReplyMarkup, Stop), If(7, Many(Obj(Entity, Stop), Stop), If(10, Word(2, Stop),
      If(23, Obj(Replies, Stop), If(15, Word(1, Stop), If(16, Text(Stop), MessageEnding()))))))
  }

  function MessageEnding(): Layout {
    If(17, Word(2, Stop),
       If(20, Obj(Reactions, Stop), If(22, Many(Obj(RestrictionReason, Stop), Stop), If(25, Word(1, Stop),
      If2(30, Word(1, Stop), If2(2, Word(2, Stop), If2(3, Obj(FactCheck, Stop), Stop)))))))
  }

  function MessageBody(c: nat): Layout {
    if c == 0x90a6ca84 then Flags(Word(1, If(0, Obj(Peer, Stop), Stop)))
    else if c == 0x2b085862 then
      Flags(Word(1, If(8, Obj(Peer, Stop), Obj(Peer, If(3, Obj(ReplyHeader, Stop), Word(1, Obj(MessageAction,
        If(20, Obj(Reactions, Stop), If(25, Word(1, Stop), Stop)))))))))
    else if c == 0x94345242 then
      Flags(Flags2(Word(1, If(8, Obj(Peer, Stop), Obj(Peer, If(28, Obj(Peer, Stop), If(2, Obj(FwdHeader, Stop),
        If(11, Word(2, Stop), If2(0, Word(2, Stop), If(3, Obj(ReplyHeader, Stop), Word(1, Text(MessageTail()))))))))))))
    else Reject
  }
}
