/**
 * The server's table of section starts (`SURAH_STARTS`) and the lookups
 * built on it: `findSurahEntry`, `getSurah` and `getSurahArabic`.
 */
module SurahTable {
  import opened JsBuiltins
  import opened Surahs

  /**
   * The 100 rows of the table, in the server's order.  Several short
   * sections that start on the same page share one row.  (The display is
   * written as ten blocks of ten rows so that the verifier can index it.)
   */
  function Table(): (t: seq<Entry>) {
    [
    Entry(1, ["Al-Fatiha"], ["الفاتحة"]),
    Entry(2, ["Al-Baqarah"], ["البقرة"]),
    Entry(49, ["Aal-Imran"], ["آل عمران"]),
    Entry(76, ["An-Nisa"], ["النساء"]),
    Entry(105, ["Al-Maidah"], ["المائدة"]),
    Entry(127, ["Al-Anam"], ["الأنعام"]),
    Entry(150, ["Al-Araf"], ["الأعراف"]),
    Entry(176, ["Al-Anfal"], ["الأنفال"]),
    Entry(186, ["At-Tawbah"], ["التوبة"]),
    Entry(207, ["Yunus"], ["يونس"])
    ]
    +
    [
    Entry(220, ["Hud"], ["هود"]),
    Entry(234, ["Yusuf"], ["يوسف"]),
    Entry(248, ["Ar-Rad"], ["الرعد"]),
    Entry(254, ["Ibrahim"], ["إبراهيم"]),
    Entry(261, ["Al-Hijr"], ["الحجر"]),
    Entry(266, ["An-Nahl"], ["النحل"]),
    Entry(281, ["Al-Isra"], ["الإسراء"]),
    Entry(292, ["Al-Kahf"], ["الكهف"]),
    Entry(304, ["Maryam"], ["مريم"]),
    Entry(311, ["Ta-Ha"], ["طه"])
    ]
    +
    [
    Entry(321, ["Al-Anbiya"], ["الأنبياء"]),
    Entry(331, ["Al-Hajj"], ["الحج"]),
    Entry(341, ["Al-Muminun"], ["المؤمنون"]),
    Entry(349, ["An-Nur"], ["النور"]),
    Entry(357, ["Al-Furqan"], ["الفرقان"]),
    Entry(366, ["Ash-Shuara"], ["الشعراء"]),
    Entry(376, ["An-Naml"], ["النمل"]),
    Entry(384, ["Al-Qasas"], ["القصص"]),
    Entry(395, ["Al-Ankabut"], ["العنكبوت"]),
    Entry(403, ["Ar-Rum"], ["الروم"])
    ]
    +
    [
    Entry(410, ["Luqman"], ["لقمان"]),
    Entry(414, ["As-Sajdah"], ["السجدة"]),
    Entry(417, ["Al-Ahzab"], ["الأحزاب"]),
    Entry(427, ["Saba"], ["سبأ"]),
    Entry(433, ["Fatir"], ["فاطر"]),
    Entry(439, ["Ya-Sin"], ["يس"]),
    Entry(445, ["As-Saffat"], ["الصافات"]),
    Entry(452, ["Sad"], ["ص"]),
    Entry(457, ["Az-Zumar"], ["الزمر"]),
    Entry(466, ["Ghafir"], ["غافر"])
    ]
    +
    [
    Entry(476, ["Fussilat"], ["فصلت"]),
    Entry(482, ["Ash-Shura"], ["الشورى"]),
    Entry(488, ["Az-Zukhruf"], ["الزخرف"]),
    Entry(495, ["Ad-Dukhan"], ["الدخان"]),
    Entry(496, ["Al-Jathiyah"], ["الجاثية"]),
    Entry(501, ["Al-Ahqaf"], ["الأحقاف"]),
    Entry(506, ["Muhammad"], ["محمد"]),
    Entry(510, ["Al-Fath"], ["الفتح"]),
    Entry(514, ["Al-Hujurat"], ["الحجرات"]),
    Entry(517, ["Qaf"], ["ق"])
    ]
    +
    [
    Entry(519, ["Adh-Dhariyat"], ["الذاريات"]),
    Entry(522, ["At-Tur"], ["الطور"]),
    Entry(525, ["An-Najm"], ["النجم"]),
    Entry(527, ["Al-Qamar"], ["القمر"]),
    Entry(530, ["Ar-Rahman"], ["الرحمن"]),
    Entry(533, ["Al-Waqi’ah"], ["الواقعة"]),
    Entry(536, ["Al-Hadid"], ["الحديد"]),
    Entry(541, ["Al-Mujadila"], ["المجادلة"]),
    Entry(544, ["Al-Hashr"], ["الحشر"]),
    Entry(546, ["Al-Mumtahanah"], ["الممتحنة"])
    ]
    +
    [
    Entry(550, ["As-Saff"], ["الصف"]),
    Entry(552, ["Al-Jumuah"], ["الجمعة"]),
    Entry(553, ["Al-Munafiqun"], ["المنافقون"]),
    Entry(555, ["At-Taghabun"], ["التغابن"]),
    Entry(557, ["At-Talaq"], ["الطلاق"]),
    Entry(559, ["At-Tahrim"], ["التحريم"]),
    Entry(561, ["Al-Mulk"], ["الملك"]),
    Entry(563, ["Al-Qalam"], ["القلم"]),
    Entry(565, ["Al-Haqqah"], ["الحاقة"]),
    Entry(567, ["Al-Ma’arij"], ["المعارج"])
    ]
    +
    [
    Entry(569, ["Nuh"], ["نوح"]),
    Entry(571, ["Al-Jinn"], ["الجن"]),
    Entry(573, ["Al-Muzzammil"], ["المزمل"]),
    Entry(574, ["Al-Muddathir"], ["المدثر"]),
    Entry(576, ["Al-Qiyamah"], ["القيامة"]),
    Entry(577, ["Al-Insan"], ["الإنسان"]),
    Entry(579, ["Al-Mursalat"], ["المرسلات"]),
    Entry(581, ["An-Naba"], ["النبأ"]),
    Entry(582, ["An-Naziat"], ["النازعات"]),
    Entry(584, ["Abasa"], ["عبس"])
    ]
    +
    [
    Entry(585, ["At-Takwir"], ["التكوير"]),
    Entry(586, ["Al-Infitar"], ["الإنفطار"]),
    Entry(587, ["Al-Mutaffifin"], ["المطففين"]),
    Entry(588, ["Al-Inshiqaq"], ["الانشقاق"]),
    Entry(589, ["Al-Buruj"], ["البروج"]),
    Entry(590, ["At-Tariq"], ["الطارق"]),
    Entry(591, ["Al-Ala", "Al-Ghashiyah"], ["الأعلى", "الغاشية"]),
    Entry(592, ["Al-Fajr"], ["الفجر"]),
    Entry(593, ["Al-Balad"], ["البلد"]),
    Entry(594, ["Ash-Shams"], ["الشمس"])
    ]
    +
    [
    Entry(595, ["Al-Layl", "Ad-Duha"], ["الليل", "الضحى"]),
    Entry(596, ["Ash-Sharh", "At-Tin"], ["الشرح", "التين"]),
    Entry(597, ["Al-Alaq"], ["العلق"]),
    Entry(598, ["Al-Qadr", "Al-Bayyinah"], ["القدر", "البينة"]),
    Entry(599, ["Az-Zalzalah", "Al-Adiyat"], ["الزلزلة", "العاديات"]),
    Entry(600, ["Al-Qari’ah", "At-Takathur"], ["القارعة", "التكاثر"]),
    Entry(601, ["Al-Asr", "Al-Humazah", "Al-Fil"], ["العصر", "الهمزة", "الفيل"]),
    Entry(602, ["Quraysh", "Al-Ma’un", "Al-Kawthar"], ["قريش", "الماعون", "الكوثر"]),
    Entry(603, ["Al-Kafirun", "An-Nasr", "Al-Masad"], ["الكافرون", "النصر", "المسد"]),
    Entry(604, ["Al-Ikhlas", "Al-Falaq", "An-Nas"], ["الإخلاص", "الفلق", "الناس"])
    ]
  }

  predicate IncreasingOn(t: seq<Entry>, lo: int, hi: int)
    requires 0 <= lo <= hi < |t|
  {
    forall i :: lo <= i < hi ==> t[i].start < t[i + 1].start
  }

  lemma Chunk0Increasing() ensures IncreasingOn(Table(), 0, 10) {}
  lemma Chunk1Increasing() ensures IncreasingOn(Table(), 10, 20) {}
  lemma Chunk2Increasing() ensures IncreasingOn(Table(), 20, 30) {}
  lemma Chunk3Increasing() ensures IncreasingOn(Table(), 30, 40) {}
  lemma Chunk4Increasing() ensures IncreasingOn(Table(), 40, 50) {}
  lemma Chunk5Increasing() ensures IncreasingOn(Table(), 50, 60) {}
  lemma Chunk6Increasing() ensures IncreasingOn(Table(), 60, 70) {}
  lemma Chunk7Increasing() ensures IncreasingOn(Table(), 70, 80) {}
  lemma Chunk8Increasing() ensures IncreasingOn(Table(), 80, 90) {}
  lemma Chunk9Increasing() ensures IncreasingOn(Table(), 90, 99) {}

  /** The server's table is well formed: it starts on page 1, rises strictly and ends on the last page. */
  lemma TableValid()
    ensures ValidTable(Table())
    ensures |Table()| == 100 && Table()[99].start == TotalPages
  {
    var t := Table();
    Chunk0Increasing(); Chunk1Increasing(); Chunk2Increasing(); Chunk3Increasing(); Chunk4Increasing();
    Chunk5Increasing(); Chunk6Increasing(); Chunk7Increasing(); Chunk8Increasing(); Chunk9Increasing();
    forall i | 0 <= i < |t| - 1 ensures t[i].start < t[i + 1].start {
      assert IncreasingOn(t, i / 10 * 10, if i < 90 then i / 10 * 10 + 10 else 99);
    }
  }

  /** `findSurahEntry(page)` over the server's table: the section holding the clamped page. */
  method FindSurahEntry(page: Number) returns (info: SurahInfo)
    ensures info == Describe(Table(), LastAtMost(Table(), ClampPage(page)))
    ensures info.start <= ClampPage(page) <= info.end <= TotalPages
  {
    TableValid();
    info := FindSurahEntryIn(Table(), page);
  }

  /** `getSurah(page)`: the joined names of the section holding the clamped page. */
  method GetSurah(page: Number) returns (name: string)
    ensures name == Join(Table()[LastAtMost(Table(), ClampPage(page))].names, Separator)
  {
    var info := FindSurahEntry(page);
    name := info.name;
  }

  /** `getSurahArabic(page)`: the joined Arabic names of the section holding the clamped page. */
  method GetSurahArabic(page: Number) returns (arabic: string)
    ensures arabic == Join(Table()[LastAtMost(Table(), ClampPage(page))].arabic, Separator)
  {
    var info := FindSurahEntry(page);
    arabic := info.arabic;
  }

  /**
   * Page 591 opens two short sections that share a row: the row chosen for
   * it is that row, and the lookup names both sections, joined with " / ".
   */
  lemma SharedPageExample()
    ensures |Table()| == 100 && Table()[86].start <= 591 < Table()[87].start
    ensures Describe(Table(), 86) ==
      SurahInfo("Al-Ala / Al-Ghashiyah", "الأعلى / الغاشية", 591, 591)
  {
    TableValid();
    var row, next := Table()[86], Table()[87];
    assert row == Entry(591, ["Al-Ala", "Al-Ghashiyah"], ["الأعلى", "الغاشية"]);
    assert next.start == 592;
    assert row.names[1..] == ["Al-Ghashiyah"] && row.arabic[1..] == ["الغاشية"];
  }
}
