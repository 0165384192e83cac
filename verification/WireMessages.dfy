/** Media, chats, users, actions and messages, as a sender writes
    them, constructor by constructor: what the skippers of `src/core/tl_skip.c` read of each, and that
    they refuse every other constructor. A field behind a flag is there when its bit is set; what is
    nested is given by its bytes. */
module WireMessages {
  import opened Bytes
  import opened TlGrammar
  import opened Wires

  lemma MediaBodies()
    ensures forall c: nat :: Body(Media, c) == MediaBody(c)
  {
  }

  lemma MediaWire1(c: uint32, geo: bytes, phone: bytes, firstName: bytes, lastName: bytes, vcard: bytes,
                   userId: uint64, title: bytes, address: bytes, provider: bytes, venueId: bytes, venueType: bytes)
    // messageMediaEmpty, messageMediaUnsupported
    ensures c in {0x3ded6320, 0x9f84f49e} ==> Reads(Media, c, End)
    // messageMediaGeo
    ensures Reads(Media, 0x56e0d474, O(GeoPoint, geo, End))
    // messageMediaContact
    ensures Reads(Media, 0x70322949, S(phone, S(firstName, S(lastName, S(vcard, L(userId, End))))))
    // messageMediaVenue
    ensures Reads(Media, 0x2ec0533f, O(GeoPoint, geo, S(title, S(address, S(provider, S(venueId, S(venueType,
            End)))))))
  {
    hide Fit, Reads, Refuses, On, Skip, Body;
    Rules(Media);
    MediaBodies();
  }

  lemma MediaWire2(flags: uint32, geo: bytes, heading: uint32, period: uint32, radius: uint32, value: uint32,
                   emoticon: bytes, photo: bytes, ttl: uint32, webpage: bytes)
    // messageMediaGeoLive
    ensures Reads(Media, 0xb940c666, I(flags, O(GeoPoint, geo, Opt(On(flags, 0), I(heading, End), I(period,
            Opt(On(flags, 1), I(radius, End), End))))))
    // messageMediaDice
    ensures Reads(Media, 0x3f7ee58b, I(value, S(emoticon, End)))
    // messageMediaPhoto
    ensures Reads(Media, 0x695150d7, I(flags, Opt(On(flags, 0), O(Photo, photo, End), Opt(On(flags, 2), I(ttl, End),
            End))))
    // messageMediaWebPage
    ensures Reads(Media, 0xddf8c26e, I(flags, O(WebPage, webpage, End)))
  {
    hide Fit, Reads, Refuses, On, Skip, Body;
    Rules(Media);
    MediaBodies();
  }

  lemma MediaWire3(poll: bytes, results: bytes, flags: uint32, title: bytes, description: bytes, webDocument: bytes,
                   receipt: uint32, currency: bytes, amount: uint64, startParam: bytes, extended: bytes, peer: bytes,
                   id: uint32, story: bytes, channels: seq<bytes>, countries: seq<bytes>, prize: bytes,
                   quantity: uint32, months: uint32, stars: uint64, until: uint32)
    // messageMediaPoll
    ensures Reads(Media, 0x4bd6e798, O(Poll, poll, O(PollResults, results, End)))
    // messageMediaInvoice
    ensures Reads(Media, 0xf6a548d3, I(flags, S(title, S(description,
            Opt(On(flags, 0), O(WebDocument, webDocument, End), Opt(On(flags, 2), I(receipt, End), S(currency,
            L(amount, S(startParam, Opt(On(flags, 4), O(ExtendedMedia, extended, End), End))))))))))
    // messageMediaStory
    ensures Reads(Media, 0x68cb6283, I(flags, O(Peer, peer, I(id, Opt(On(flags, 0), O(StoryItem, story, End), End)))))
    // messageMediaGiveaway
    ensures Reads(Media, 0xaa073bee, I(flags, V(ALong, channels, Opt(On(flags, 1), V(AString, countries, End),
            Opt(On(flags, 3), S(prize, End), I(quantity, Opt(On(flags, 4), I(months, End),
            Opt(On(flags, 5), L(stars, End), I(until, End)))))))))
  {
    hide Fit, Reads, Refuses, On, Skip, Body;
    Rules(Media);
    MediaBodies();
    FitReads(Media, 0xf6a548d3, I(flags, S(title, S(description, Opt(On(flags, 0), O(WebDocument, webDocument, End),
      Opt(On(flags, 2), I(receipt, End), S(currency, L(amount, S(startParam,
      Opt(On(flags, 4), O(ExtendedMedia, extended, End), End))))))))));
    FitReads(Media, 0x68cb6283, I(flags, O(Peer, peer, I(id, Opt(On(flags, 0), O(StoryItem, story, End), End)))));
    FitReads(Media, 0xaa073bee, I(flags, V(ALong, channels, Opt(On(flags, 1), V(AString, countries, End),
      Opt(On(flags, 3), S(prize, End), I(quantity, Opt(On(flags, 4), I(months, End), Opt(On(flags, 5), L(stars, End),
      I(until, End)))))))));
  }

  lemma MediaWire4(game: bytes, stars: uint64, media: seq<bytes>, flags: uint32, document: bytes, ttl: uint32,
                   alternatives: seq<bytes>)
    // messageMediaGame
    ensures Reads(Media, 0xfdb19008, O(Game, game, End))
    // messageMediaPaidMedia
    ensures Reads(Media, 0xa8852491, L(stars, V(AnObject(ExtendedMedia), media, End)))
    // messageMediaDocument
    ensures Reads(Media, 0x4cf4d72d, I(flags, Opt(On(flags, 0), O(Document, document, End),
            Opt(On(flags, 2), I(ttl, End), Opt(On(flags, 10), V(AnObject(Document), alternatives, End), End)))))
  {
    hide Fit, Reads, Refuses, On, Skip, Body;
    Rules(Media);
    MediaBodies();
  }

  lemma MediaRefused(c: uint32)
    ensures c !in {0x3ded6320, 0x9f84f49e, 0x56e0d474, 0x70322949, 0x2ec0533f, 0xb940c666, 0x3f7ee58b, 0x695150d7,
                   0xddf8c26e, 0x4bd6e798, 0xf6a548d3, 0x68cb6283, 0xaa073bee, 0xfdb19008, 0xa8852491, 0x4cf4d72d} ==>
              Refuses(Media, c)
  {
    hide Fit, Reads, Refuses, On, Skip, Body;
    Rules(Media);
    MediaBodies();
  }

  lemma ChatPhotoBodies()
    ensures forall c: nat :: Body(ChatPhoto, c) == ChatPhotoBody(c)
  {
  }

  lemma ChatPhotoWire(c: uint32, flags: uint32, id: uint64, thumb: bytes, dc: uint32)
    // chatPhotoEmpty
    ensures Reads(ChatPhoto, 0x37c1011c, End)
    // chatPhoto
    ensures Reads(ChatPhoto, 0x1c6e1c11, I(flags, L(id, Opt(On(flags, 1), S(thumb, End), I(dc, End)))))
    ensures c !in {0x37c1011c, 0x1c6e1c11} ==> Refuses(ChatPhoto, c)
  {
    hide Fit, Reads, Refuses, On, Skip, Body;
    Rules(ChatPhoto);
    ChatPhotoBodies();
  }

  lemma UserProfilePhotoBodies()
    ensures forall c: nat :: Body(UserProfilePhoto, c) == UserProfilePhotoBody(c)
  {
  }

  lemma UserProfilePhotoWire(c: uint32, flags: uint32, id: uint64, thumb: bytes, dc: uint32)
    // userProfilePhotoEmpty
    ensures Reads(UserProfilePhoto, 0x4f11bae1, End)
    // userProfilePhoto
    ensures Reads(UserProfilePhoto, 0x82d1f706, I(flags, L(id, Opt(On(flags, 1), S(thumb, End), I(dc, End)))))
    ensures c !in {0x4f11bae1, 0x82d1f706} ==> Refuses(UserProfilePhoto, c)
  {
    hide Fit, Reads, Refuses, On, Skip, Body;
    Rules(UserProfilePhoto);
    UserProfilePhotoBodies();
  }

  lemma UserStatusBodies()
    ensures forall c: nat :: Body(UserStatus, c) == UserStatusBody(c)
  {
  }

  lemma UserStatusWire(c: uint32, when: uint32)
    // userStatusEmpty
    ensures Reads(UserStatus, 0x09d05049, End)
    // userStatusOnline, userStatusOffline, userStatusRecently, userStatusLastWeek, userStatusLastMonth
    ensures c in {0xedb93949, 0x008c703f, 0x7b197dc8, 0x541a1d1a, 0x65899e67} ==> Reads(UserStatus, c, I(when, End))
    ensures c !in {0x09d05049, 0xedb93949, 0x008c703f, 0x7b197dc8, 0x541a1d1a, 0x65899e67} ==> Refuses(UserStatus, c)
  {
    hide Fit, Reads, Refuses, On, Skip, Body;
    Rules(UserStatus);
    UserStatusBodies();
  }

  lemma RestrictionReasonBodies()
    ensures forall c: nat :: Body(RestrictionReason, c) == RestrictionReasonBody(c)
  {
  }

  lemma RestrictionReasonWire(c: uint32, platform: bytes, reason: bytes, text: bytes)
    // restrictionReason
    ensures Reads(RestrictionReason, 0xd072acb4, S(platform, S(reason, S(text, End))))
    ensures c !in {0xd072acb4} ==> Refuses(RestrictionReason, c)
  {
    hide Fit, Reads, Refuses, On, Skip, Body;
    Rules(RestrictionReason);
    RestrictionReasonBodies();
  }

  lemma UsernameBodies()
    ensures forall c: nat :: Body(Username, c) == UsernameBody(c)
  {
  }

  lemma UsernameWire(c: uint32, flags: uint32, name: bytes)
    // username
    ensures Reads(Username, 0xb4073647, I(flags, S(name, End)))
    ensures c !in {0xb4073647} ==> Refuses(Username, c)
  {
    hide Fit, Reads, Refuses, On, Skip, Body;
    Rules(Username);
    UsernameBodies();
  }

  lemma PeerColorBodies()
    ensures forall c: nat :: Body(PeerColor, c) == PeerColorBody(c)
  {
  }

  lemma PeerColorWire(c: uint32, flags: uint32, color: uint32, emojiId: uint64)
    // peerColor
    ensures Reads(PeerColor, 0xb54b5acf, I(flags, Opt(On(flags, 0), I(color, End), Opt(On(flags, 1), L(emojiId, End),
            End))))
    ensures c !in {0xb54b5acf} ==> Refuses(PeerColor, c)
  {
    hide Fit, Reads, Refuses, On, Skip, Body;
    Rules(PeerColor);
    PeerColorBodies();
  }

  lemma EmojiStatusBodies()
    ensures forall c: nat :: Body(EmojiStatus, c) == EmojiStatusBody(c)
  {
  }

  lemma EmojiStatusWire(c: uint32, documentId: uint64, until: uint32)
    // emojiStatusEmpty
    ensures Reads(EmojiStatus, 0x2de11aae, End)
    // emojiStatus
    ensures Reads(EmojiStatus, 0x929b619d, L(documentId, End))
    // emojiStatusUntil
    ensures Reads(EmojiStatus, 0xfa30a8c7, L(documentId, I(until, End)))
    ensures c !in {0x2de11aae, 0x929b619d, 0xfa30a8c7} ==> Refuses(EmojiStatus, c)
  {
    hide Fit, Reads, Refuses, On, Skip, Body;
    Rules(EmojiStatus);
    EmojiStatusBodies();
  }

  lemma ChatAdminRightsBodies()
    ensures forall c: nat :: Body(ChatAdminRights, c) == ChatAdminRightsBody(c)
  {
  }

  lemma ChatAdminRightsWire(c: uint32, flags: uint32)
    // chatAdminRights
    ensures Reads(ChatAdminRights, 0x5fb224d5, I(flags, End))
    ensures c !in {0x5fb224d5} ==> Refuses(ChatAdminRights, c)
  {
    hide Fit, Reads, Refuses, On, Skip, Body;
    Rules(ChatAdminRights);
    ChatAdminRightsBodies();
  }

  lemma ChatBannedRightsBodies()
    ensures forall c: nat :: Body(ChatBannedRights, c) == ChatBannedRightsBody(c)
  {
  }

  lemma ChatBannedRightsWire(c: uint32, flags: uint32, until: uint32)
    // chatBannedRights
    ensures Reads(ChatBannedRights, 0x9f120418, I(flags, I(until, End)))
    ensures c !in {0x9f120418} ==> Refuses(ChatBannedRights, c)
  {
    hide Fit, Reads, Refuses, On, Skip, Body;
    Rules(ChatBannedRights);
    ChatBannedRightsBodies();
  }

  lemma InputChannelBodies()
    ensures forall c: nat :: Body(InputChannel, c) == InputChannelBody(c)
  {
  }

  lemma InputChannelWire(c: uint32, id: uint64, hash: uint64)
    // inputChannelEmpty
    ensures Reads(InputChannel, 0xee8c1e86, End)
    // inputChannel, inputChannelFromMessage
    ensures c in {0xf35aec28, 0x5b934f9d} ==> Reads(InputChannel, c, L(id, L(hash, End)))
    ensures c !in {0xee8c1e86, 0xf35aec28, 0x5b934f9d} ==> Refuses(InputChannel, c)
  {
    hide Fit, Reads, Refuses, On, Skip, Body;
    Rules(InputChannel);
    InputChannelBodies();
  }

  lemma ChatBodies()
    ensures forall c: nat :: Body(Chat, c) == ChatBody(c)
  {
  }

  lemma ChatWire1(id: uint64, title: bytes, flags: uint32, migrated: bytes, photo: bytes, count: uint32, date: uint32,
                  version: uint32, admin: bytes, default: bytes, hash: uint64, until: uint32)
    // chatEmpty
    ensures Reads(Chat, 0x29562865, L(id, End))
    // chatForbidden
    ensures Reads(Chat, 0x6592a1a7, L(id, S(title, End)))
    // chat
    ensures Reads(Chat, 0x41cbf256, I(flags, Opt(On(flags, 6), O(InputChannel, migrated, End), L(id, S(title,
            O(ChatPhoto, photo, I(count, I(date, I(version, Opt(On(flags, 14), O(ChatAdminRights, admin, End),
            Opt(On(flags, 18), O(ChatBannedRights, default, End), End)))))))))))
    // channelForbidden
    ensures Reads(Chat, 0x17d493d5, I(flags, L(id, L(hash, S(title, Opt(On(flags, 16), I(until, End), End))))))
  {
    hide Fit, Reads, Refuses, On, Skip, Body;
    Rules(Chat);
    ChatBodies();
  }

  lemma ChannelEndingFits(flags: uint32, flags2: uint32, names: seq<bytes>, storyId: uint32, color: bytes,
                          profileColor: bytes, status: bytes, level: uint32, until: uint32)
    ensures Fit(ChannelEnding(), flags, flags2, Opt(On(flags2, 0), V(AnObject(Username), names, End),
            Opt(On(flags2, 4), I(storyId, End), Opt(On(flags2, 7), O(PeerColor, color, End),
            Opt(On(flags2, 8), O(PeerColor, profileColor, End), Opt(On(flags2, 9), O(EmojiStatus, status, End),
            Opt(On(flags2, 10), I(level, End), Opt(On(flags2, 11), I(until, End), End))))))))
  {
    hide Fit, On;
    Rules(Chat);
  }

  lemma ChannelFits(flags: uint32, flags2: uint32, id: uint64, hash: uint64, title: bytes, name: bytes, photo: bytes,
                    date: uint32, reasons: seq<bytes>, admin: bytes, banned: bytes, default: bytes, count: uint32,
                    rest: Wire)
    requires Fit(ChannelEnding(), flags, flags2, rest)
    ensures Fit(ChatBody(0x0aadfc8f), 0, 0, I(flags, I(flags2, L(id, Opt(On(flags, 13), L(hash, End), S(title,
            Opt(On(flags, 6), S(name, End), O(ChatPhoto, photo, I(date,
            Opt(On(flags, 9), V(AnObject(RestrictionReason), reasons, End),
            Opt(On(flags, 14), O(ChatAdminRights, admin, End), Opt(On(flags, 15), O(ChatBannedRights, banned, End),
            Opt(On(flags, 18), O(ChatBannedRights, default, End), Opt(On(flags, 17), I(count, End), rest))))))))))))))
  {
    hide Fit, On, ChannelEnding;
    Rules(Chat);
  }

  lemma ChatWire2(flags: uint32, flags2: uint32, id: uint64, hash: uint64, title: bytes, name: bytes, photo: bytes,
                  date: uint32, reasons: seq<bytes>, admin: bytes, banned: bytes, default: bytes, count: uint32,
                  names: seq<bytes>, storyId: uint32, color: bytes, profileColor: bytes, status: bytes, level: uint32,
                  until: uint32)
    // channel
    ensures Reads(Chat, 0x0aadfc8f, I(flags, I(flags2, L(id, Opt(On(flags, 13), L(hash, End), S(title,
            Opt(On(flags, 6), S(name, End), O(ChatPhoto, photo, I(date,
            Opt(On(flags, 9), V(AnObject(RestrictionReason), reasons, End),
            Opt(On(flags, 14), O(ChatAdminRights, admin, End), Opt(On(flags, 15), O(ChatBannedRights, banned, End),
            Opt(On(flags, 18), O(ChatBannedRights, default, End), Opt(On(flags, 17), I(count, End),
            Opt(On(flags2, 0), V(AnObject(Username), names, End), Opt(On(flags2, 4), I(storyId, End),
            Opt(On(flags2, 7), O(PeerColor, color, End), Opt(On(flags2, 8), O(PeerColor, profileColor, End),
            Opt(On(flags2, 9), O(EmojiStatus, status, End), Opt(On(flags2, 10), I(level, End),
            Opt(On(flags2, 11), I(until, End), End)))))))))))))))))))))
  {
    hide Fit, Reads, On, Body, ChannelEnding, ChatBody;
    var ending := Opt(On(flags2, 0), V(AnObject(Username), names, End), Opt(On(flags2, 4), I(storyId, End),
      Opt(On(flags2, 7), O(PeerColor, color, End), Opt(On(flags2, 8), O(PeerColor, profileColor, End),
      Opt(On(flags2, 9), O(EmojiStatus, status, End), Opt(On(flags2, 10), I(level, End),
      Opt(On(flags2, 11), I(until, End), End)))))));
    ChannelEndingFits(flags, flags2, names, storyId, color, profileColor, status, level, until);
    ChannelFits(flags, flags2, id, hash, title, name, photo, date, reasons, admin, banned, default, count, ending);
    ChatBodies();
    FitReads(Chat, 0x0aadfc8f, I(flags, I(flags2, L(id, Opt(On(flags, 13), L(hash, End), S(title,
      Opt(On(flags, 6), S(name, End), O(ChatPhoto, photo, I(date,
      Opt(On(flags, 9), V(AnObject(RestrictionReason), reasons, End),
      Opt(On(flags, 14), O(ChatAdminRights, admin, End), Opt(On(flags, 15), O(ChatBannedRights, banned, End),
      Opt(On(flags, 18), O(ChatBannedRights, default, End), Opt(On(flags, 17), I(count, End), ending))))))))))))));
  }

  lemma ChatRefused(c: uint32)
    ensures c !in {0x29562865, 0x6592a1a7, 0x41cbf256, 0x17d493d5, 0x0aadfc8f} ==> Refuses(Chat, c)
  {
    hide Fit, Reads, Refuses, On, Skip, Body;
    Rules(Chat);
    ChatBodies();
  }

  lemma UserBodies()
    ensures forall c: nat :: Body(User, c) == UserBody(c)
  {
  }

  lemma UserWire1(id: uint64)
    // userEmpty
    ensures Reads(User, 0xd3bc4b7a, L(id, End))
  {
    hide Fit, Reads, Refuses, On, Skip, Body;
    Rules(User);
    UserBodies();
  }

  lemma UserWire2(c: uint32, flags: uint32, flags2: uint32, id: uint64, hash: uint64, firstName: bytes,
                  lastName: bytes, name: bytes, phone: bytes, photo: bytes, presence: bytes, botVersion: uint32,
                  reasons: seq<bytes>, placeholder: bytes, langCode: bytes, status: bytes, names: seq<bytes>,
                  storyId: uint32, color: bytes, profileColor: bytes, botUsers: uint32)
    // user, user2
    ensures c in {0x3ff6ecb0, 0x83314fca} ==>
              Reads(User, c, I(flags, I(flags2, L(id, Opt(On(flags, 0), L(hash, End),
              Opt(On(flags, 1), S(firstName, End), Opt(On(flags, 2), S(lastName, End), Opt(On(flags, 3), S(name, End),
              Opt(On(flags, 4), S(phone, End), Opt(On(flags, 5), O(UserProfilePhoto, photo, End),
              Opt(On(flags, 6), O(UserStatus, presence, End), Opt(On(flags, 14), I(botVersion, End),
              Opt(On(flags, 18), V(AnObject(RestrictionReason), reasons, End), Opt(On(flags, 19), S(placeholder, End),
              Opt(On(flags, 22), S(langCode, End), Opt(On(flags, 30), O(EmojiStatus, status, End),
              Opt(On(flags2, 0), V(AnObject(Username), names, End), Opt(On(flags2, 5), I(storyId, End),
              Opt(On(flags2, 8), O(PeerColor, color, End), Opt(On(flags2, 9), O(PeerColor, profileColor, End),
              Opt(On(flags2, 12), I(botUsers, End), End)))))))))))))))))))))
  {
    hide Fit, Reads, Refuses, On, Skip, Body;
    Rules(User);
    UserBodies();
    if c in {0x3ff6ecb0, 0x83314fca} {
      FitReads(User, c, I(flags, I(flags2, L(id, Opt(On(flags, 0), L(hash, End), Opt(On(flags, 1), S(firstName, End),
        Opt(On(flags, 2), S(lastName, End), Opt(On(flags, 3), S(name, End), Opt(On(flags, 4), S(phone, End),
        Opt(On(flags, 5), O(UserProfilePhoto, photo, End), Opt(On(flags, 6), O(UserStatus, presence, End),
        Opt(On(flags, 14), I(botVersion, End), Opt(On(flags, 18), V(AnObject(RestrictionReason), reasons, End),
        Opt(On(flags, 19), S(placeholder, End), Opt(On(flags, 22), S(langCode, End),
        Opt(On(flags, 30), O(EmojiStatus, status, End), Opt(On(flags2, 0), V(AnObject(Username), names, End),
        Opt(On(flags2, 5), I(storyId, End), Opt(On(flags2, 8), O(PeerColor, color, End),
        Opt(On(flags2, 9), O(PeerColor, profileColor, End), Opt(On(flags2, 12), I(botUsers, End),
        End)))))))))))))))))))));
    }
  }

  lemma UserRefused(c: uint32)
    ensures c !in {0xd3bc4b7a, 0x3ff6ecb0, 0x83314fca} ==> Refuses(User, c)
  {
    hide Fit, Reads, Refuses, On, Skip, Body;
    Rules(User);
    UserBodies();
  }

  lemma MessageActionBodies()
    ensures forall c: nat :: Body(MessageAction, c) == MessageActionBody(c)
  {
  }

  lemma MessageActionWire1(c: uint32, title: bytes, id: uint64, users: seq<bytes>)
    // messageActionEmpty, messageActionChatDeletePhoto, messageActionPinMessage, messageActionHistoryClear,
    // messageActionScreenshotTaken, messageActionContactSignUp, messageActionChatJoinedByRequest
    ensures c in {0xb6aef7b0, 0x95e3fbef, 0x94bd38ed, 0x9fbab604, 0x4792929b, 0x9244c2ad, 0xb4c38cb5} ==>
              Reads(MessageAction, c, End)
    // messageActionChatEditTitle, messageActionChannelCreate, messageActionCustomAction
    ensures c in {0xb5a1ce5a, 0x95d2ac92, 0xfae69f56} ==> Reads(MessageAction, c, S(title, End))
    // messageActionChatDeleteUser, messageActionChatMigrateTo, messageActionChatJoinedByLink
    ensures c in {0xa43f30cc, 0xe1037f92, 0x031224c3} ==> Reads(MessageAction, c, L(id, End))
    // messageActionChatCreate
    ensures |users| <= 4096 ==> Reads(MessageAction, 0xbd47cbad, S(title, V(ALong, users, End)))
    // messageActionChatAddUser
    ensures |users| <= 4096 ==> Reads(MessageAction, 0x15cefd00, V(ALong, users, End))
    // messageActionChannelMigrateFrom
    ensures Reads(MessageAction, 0xea3948e9, S(title, L(id, End)))
  {
    hide Fit, Reads, Refuses, On, Skip, Body;
    Rules(MessageAction);
    MessageActionBodies();
  }

  lemma MessageActionWire2(c: uint32, photo: bytes, flags: uint32, id: uint64, reason: uint32, duration: uint32,
                           ctor: uint32, hash: uint64, date: uint32, users: seq<bytes>)
    // messageActionChatEditPhoto
    ensures Reads(MessageAction, 0x7fcb13a8, O(Photo, photo, End))
    // messageActionPhoneCall
    ensures Reads(MessageAction, 0x80e11a7f, I(flags, L(id, Opt(On(flags, 0), I(reason, End),
            Opt(On(flags, 1), I(duration, End), End)))))
    // messageActionGroupCall
    ensures Reads(MessageAction, 0x7a0d7f42, I(flags, I(ctor, L(id, L(hash, Opt(On(flags, 0), I(duration, End),
            End))))))
    // messageActionGroupCallScheduled
    ensures Reads(MessageAction, 0xb3a07661, I(ctor, L(id, L(hash, I(date, End)))))
    // messageActionInviteToGroupCall
    ensures |users| <= 4096 ==> Reads(MessageAction, 0x502f92f7, I(ctor, L(id, L(hash, V(ALong, users, End)))))
    ensures c !in {0xb6aef7b0, 0x95e3fbef, 0x94bd38ed, 0x9fbab604, 0x4792929b, 0x9244c2ad, 0xb4c38cb5, 0xb5a1ce5a,
                   0x95d2ac92, 0xfae69f56, 0xa43f30cc, 0xe1037f92, 0x031224c3, 0xbd47cbad, 0x15cefd00, 0xea3948e9,
                   0x7fcb13a8, 0x80e11a7f, 0x7a0d7f42, 0xb3a07661, 0x502f92f7} ==>
              Refuses(MessageAction, c)
  {
    hide Fit, Reads, Refuses, On, Skip, Body;
    Rules(MessageAction);
    MessageActionBodies();
  }

  lemma MessageBodies()
    ensures forall c: nat :: Body(Message, c) == MessageBody(c)
  {
  }

  lemma MessageWire1(flags: uint32, id: uint32, peer: bytes, from: bytes, replyTo: bytes, date: uint32, action: bytes,
                     reactions: bytes, ttl: uint32)
    // messageEmpty
    ensures Reads(Message, 0x90a6ca84, I(flags, I(id, Opt(On(flags, 0), O(Peer, peer, End), End))))
    // messageService
    ensures Reads(Message, 0x2b085862, I(flags, I(id, Opt(On(flags, 8), O(Peer, from, End), O(Peer, peer,
            Opt(On(flags, 3), O(ReplyHeader, replyTo, End), I(date, O(MessageAction, action,
            Opt(On(flags, 20), O(Reactions, reactions, End), Opt(On(flags, 25), I(ttl, End), End))))))))))
  {
    hide Fit, Reads, Refuses, On, Skip, Body;
    Rules(Message);
    MessageBodies();
  }

  lemma MessageEndingFits(flags: uint32, flags2: uint32, groupId: uint64, reactions: bytes, reasons: seq<bytes>,
                          ttl: uint32, schedule: uint32, effect: uint64, factCheck: bytes)
    ensures Fit(MessageEnding(), flags, flags2, Opt(On(flags, 17), L(groupId, End),
            Opt(On(flags, 20), O(Reactions, reactions, End),
            Opt(On(flags, 22), V(AnObject(RestrictionReason), reasons, End), Opt(On(flags, 25), I(ttl, End),
            Opt(On(flags2, 30), I(schedule, End), Opt(On(flags2, 2), L(effect, End),
            Opt(On(flags2, 3), O(FactCheck, factCheck, End), End))))))))
  {
    hide Fit, On;
    Rules(Message);
  }

  lemma MessageTailFits(flags: uint32, flags2: uint32, media: bytes, markup: bytes, entities: seq<bytes>,
                        views: uint32, forwards: uint32, replies: bytes, editDate: uint32, author: bytes, rest: Wire)
    requires Fit(MessageEnding(), flags, flags2, rest)
    ensures Fit(MessageTail(), flags, flags2, Opt(On(flags, 9), O(Media, media, End),
            Opt(On(flags, 6), O(ReplyMarkup, markup, End), Opt(On(flags, 7), V(AnObject(Entity), entities, End),
            Opt(On(flags, 10), I(views, I(forwards, End)), Opt(On(flags, 23), O(Replies, replies, End),
            Opt(On(flags, 15), I(editDate, End), Opt(On(flags, 16), S(author, End), rest))))))))
  {
    hide Fit, On, MessageEnding;
    Rules(Message);
  }

  lemma MessageFits(flags: uint32, flags2: uint32, id: uint32, from: bytes, peer: bytes, savedPeer: bytes, fwd: bytes,
                    viaBot: uint64, viaBusiness: uint64, replyTo: bytes, date: uint32, text: bytes, rest: Wire)
    requires Fit(MessageTail(), flags, flags2, rest)
    ensures Fit(MessageBody(0x94345242), 0, 0, I(flags, I(flags2, I(id, Opt(On(flags, 8), O(Peer, from, End),
            O(Peer, peer, Opt(On(flags, 28), O(Peer, savedPeer, End), Opt(On(flags, 2), O(FwdHeader, fwd, End),
            Opt(On(flags, 11), L(viaBot, End), Opt(On(flags2, 0), L(viaBusiness, End),
            Opt(On(flags, 3), O(ReplyHeader, replyTo, End), I(date, S(text, rest)))))))))))))
  {
    hide Fit, On, Body, MessageTail;
    Rules(Message);
  }

  lemma MessageWire2(flags: uint32, flags2: uint32, id: uint32, from: bytes, peer: bytes, savedPeer: bytes,
                     fwd: bytes, viaBot: uint64, viaBusiness: uint64, replyTo: bytes, date: uint32, text: bytes,
                     media: bytes, markup: bytes, entities: seq<bytes>, views: uint32, forwards: uint32,
                     replies: bytes, editDate: uint32, author: bytes, groupId: uint64, reactions: bytes,
                     reasons: seq<bytes>, ttl: uint32, schedule: uint32, effect: uint64, factCheck: bytes)
    // message
    ensures Reads(Message, 0x94345242, I(flags, I(flags2, I(id, Opt(On(flags, 8), O(Peer, from, End), O(Peer, peer,
            Opt(On(flags, 28), O(Peer, savedPeer, End), Opt(On(flags, 2), O(FwdHeader, fwd, End),
            Opt(On(flags, 11), L(viaBot, End), Opt(On(flags2, 0), L(viaBusiness, End),
            Opt(On(flags, 3), O(ReplyHeader, replyTo, End), I(date, S(text, Opt(On(flags, 9), O(Media, media, End),
            Opt(On(flags, 6), O(ReplyMarkup, markup, End), Opt(On(flags, 7), V(AnObject(Entity), entities, End),
            Opt(On(flags, 10), I(views, I(forwards, End)), Opt(On(flags, 23), O(Replies, replies, End),
            Opt(On(flags, 15), I(editDate, End), Opt(On(flags, 16), S(author, End),
            Opt(On(flags, 17), L(groupId, End), Opt(On(flags, 20), O(Reactions, reactions, End),
            Opt(On(flags, 22), V(AnObject(RestrictionReason), reasons, End), Opt(On(flags, 25), I(ttl, End),
            Opt(On(flags2, 30), I(schedule, End), Opt(On(flags2, 2), L(effect, End),
            Opt(On(flags2, 3), O(FactCheck, factCheck, End), End)))))))))))))))))))))))))))
  {
    hide Fit, Reads, On, Body, MessageTail, MessageEnding, MessageBody;
    var ending := Opt(On(flags, 17), L(groupId, End), Opt(On(flags, 20), O(Reactions, reactions, End),
      Opt(On(flags, 22), V(AnObject(RestrictionReason), reasons, End), Opt(On(flags, 25), I(ttl, End),
      Opt(On(flags2, 30), I(schedule, End), Opt(On(flags2, 2), L(effect, End),
      Opt(On(flags2, 3), O(FactCheck, factCheck, End), End)))))));
    var tail := Opt(On(flags, 9), O(Media, media, End), Opt(On(flags, 6), O(ReplyMarkup, markup, End),
      Opt(On(flags, 7), V(AnObject(Entity), entities, End), Opt(On(flags, 10), I(views, I(forwards, End)),
      Opt(On(flags, 23), O(Replies, replies, End), Opt(On(flags, 15), I(editDate, End),
      Opt(On(flags, 16), S(author, End), ending)))))));
    MessageEndingFits(flags, flags2, groupId, reactions, reasons, ttl, schedule, effect, factCheck);
    MessageTailFits(flags, flags2, media, markup, entities, views, forwards, replies, editDate, author, ending);
    MessageFits(flags, flags2, id, from, peer, savedPeer, fwd, viaBot, viaBusiness, replyTo, date, text, tail);
    MessageBodies();
    FitReads(Message, 0x94345242, I(flags, I(flags2, I(id, Opt(On(flags, 8), O(Peer, from, End), O(Peer, peer,
      Opt(On(flags, 28), O(Peer, savedPeer, End), Opt(On(flags, 2), O(FwdHeader, fwd, End),
      Opt(On(flags, 11), L(viaBot, End), Opt(On(flags2, 0), L(viaBusiness, End),
      Opt(On(flags, 3), O(ReplyHeader, replyTo, End), I(date, S(text, tail)))))))))))));
  }

  lemma MessageRefused(c: uint32)
    ensures c !in {0x90a6ca84, 0x2b085862, 0x94345242} ==> Refuses(Message, c)
  {
    hide Fit, Reads, Refuses, On, Skip, Body;
    Rules(Message);
    MessageBodies();
  }
}
