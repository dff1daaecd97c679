/** The three code tables of 04_types_contd_homework-12926-ae2162/main.c and their inverses. */
module Codepages {
  import opened Wrappers

  datatype Codepage = Cp1251 | Koi8r | Iso88595

  /** The comparisons of lines 71-80: any other name ends the program. */
  function CodepageOf(name: string): Option<Codepage> {
    if name == "cp1251" then Some(Cp1251)
    else if name == "koi8-r" then Some(Koi8r)
    else if name == "iso-8859-5" then Some(Iso88595)
    else None
  }

  /** What every table entry is: 0, or a point of the basic plane that is neither ASCII nor a surrogate. */
  predicate Sound(u: bv32) {
    u == 0 || 0x80 <= u <= 0x2FFF
  }

  // ------------------------------------------------------------ cp1251

  function Cp1251Row8(j: bv4): bv32 {
    if j == 0 then 0x0402 else if j == 1 then 0x0403 else if j == 2 then 0x20a1 else
    if j == 3 then 0x0453 else if j == 4 then 0x201e else if j == 5 then 0x2026 else
    if j == 6 then 0x2020 else if j == 7 then 0x2021 else if j == 8 then 0x20ac else
    if j == 9 then 0x2030 else if j == 10 then 0x0409 else if j == 11 then 0x2039 else
    if j == 12 then 0x040a else if j == 13 then 0x040c else if j == 14 then 0x040b else 0x040f
  }

  function Cp1251Row9(j: bv4): bv32 {
    if j == 0 then 0x0452 else if j == 1 then 0x2018 else if j == 2 then 0x2019 else
    if j == 3 then 0x201c else if j == 4 then 0x201d else if j == 5 then 0x2022 else
    if j == 6 then 0x2013 else if j == 7 then 0x2014 else if j == 8 then 0x0000 else
    if j == 9 then 0x2122 else if j == 10 then 0x0459 else if j == 11 then 0x203a else
    if j == 12 then 0x045a else if j == 13 then 0x045c else if j == 14 then 0x045b else 0x045f
  }

  function Cp1251RowA(j: bv4): bv32 {
    if j == 0 then 0x00a0 else if j == 1 then 0x040e else if j == 2 then 0x045e else
    if j == 3 then 0x0408 else if j == 4 then 0x00a4 else if j == 5 then 0x0490 else
    if j == 6 then 0x00a6 else if j == 7 then 0x00a7 else if j == 8 then 0x0401 else
    if j == 9 then 0x00a9 else if j == 10 then 0x0404 else if j == 11 then 0x00ab else
    if j == 12 then 0x00ac else if j == 13 then 0x00ad else if j == 14 then 0x00ae else 0x0407
  }

  function Cp1251RowB(j: bv4): bv32 {
    if j == 0 then 0x00b0 else if j == 1 then 0x00b1 else if j == 2 then 0x0406 else
    if j == 3 then 0x0456 else if j == 4 then 0x0491 else if j == 5 then 0x00b5 else
    if j == 6 then 0x00b6 else if j == 7 then 0x00b7 else if j == 8 then 0x0451 else
    if j == 9 then 0x2116 else if j == 10 then 0x0454 else if j == 11 then 0x00bb else
    if j == 12 then 0x0458 else if j == 13 then 0x0405 else if j == 14 then 0x0455 else 0x0457
  }

  function Cp1251RowC(j: bv4): bv32 {
    if j == 0 then 0x0410 else if j == 1 then 0x0411 else if j == 2 then 0x0412 else
    if j == 3 then 0x0413 else if j == 4 then 0x0414 else if j == 5 then 0x0415 else
    if j == 6 then 0x0416 else if j == 7 then 0x0417 else if j == 8 then 0x0418 else
    if j == 9 then 0x0419 else if j == 10 then 0x041a else if j == 11 then 0x041b else
    if j == 12 then 0x041c else if j == 13 then 0x041d else if j == 14 then 0x041e else 0x041f
  }

  function Cp1251RowD(j: bv4): bv32 {
    if j == 0 then 0x0420 else if j == 1 then 0x0421 else if j == 2 then 0x0422 else
    if j == 3 then 0x0423 else if j == 4 then 0x0424 else if j == 5 then 0x0425 else
    if j == 6 then 0x0426 else if j == 7 then 0x0427 else if j == 8 then 0x0428 else
    if j == 9 then 0x0429 else if j == 10 then 0x042a else if j == 11 then 0x042b else
    if j == 12 then 0x042c else if j == 13 then 0x042d else if j == 14 then 0x042e else 0x042f
  }

  function Cp1251RowE(j: bv4): bv32 {
    if j == 0 then 0x0430 else if j == 1 then 0x0431 else if j == 2 then 0x0432 else
    if j == 3 then 0x0433 else if j == 4 then 0x0434 else if j == 5 then 0x0435 else
    if j == 6 then 0x0436 else if j == 7 then 0x0437 else if j == 8 then 0x0438 else
    if j == 9 then 0x0439 else if j == 10 then 0x043a else if j == 11 then 0x043b else
    if j == 12 then 0x043c else if j == 13 then 0x043d else if j == 14 then 0x043e else 0x043f
  }

  function Cp1251RowF(j: bv4): bv32 {
    if j == 0 then 0x0440 else if j == 1 then 0x0441 else if j == 2 then 0x0442 else
    if j == 3 then 0x0443 else if j == 4 then 0x0444 else if j == 5 then 0x0445 else
    if j == 6 then 0x0446 else if j == 7 then 0x0447 else if j == 8 then 0x0448 else
    if j == 9 then 0x0449 else if j == 10 then 0x044a else if j == 11 then 0x044b else
    if j == 12 then 0x044c else if j == 13 then 0x044d else if j == 14 then 0x044e else 0x044f
  }

  function Cp1251Table(i: bv8): bv32
    requires i < 0x80
  {
    var h, j := (i >> 4) as bv4, (i & 15) as bv4;
    if h == 0 then Cp1251Row8(j) else if h == 1 then Cp1251Row9(j) else
    if h == 2 then Cp1251RowA(j) else if h == 3 then Cp1251RowB(j) else
    if h == 4 then Cp1251RowC(j) else if h == 5 then Cp1251RowD(j) else
    if h == 6 then Cp1251RowE(j) else Cp1251RowF(j)
  }

  // The inverse, by ranges of points; what is no entry is sent anywhere.

  function Cp1251Upper(u: bv32): bv8 {
    if u == 0x0401 then 0xa8 else if u == 0x0402 then 0x80 else if u == 0x0403 then 0x81 else
    if u == 0x0404 then 0xaa else if u == 0x0405 then 0xbd else if u == 0x0406 then 0xb2 else
    if u == 0x0407 then 0xaf else if u == 0x0408 then 0xa3 else if u == 0x0409 then 0x8a else
    if u == 0x040a then 0x8c else if u == 0x040b then 0x8e else if u == 0x040c then 0x8d else
    if u == 0x040e then 0xa1 else if u == 0x040f then 0x8f else 0
  }

  function Cp1251Lower(u: bv32): bv8 {
    if u == 0x0451 then 0xb8 else if u == 0x0452 then 0x90 else if u == 0x0453 then 0x83 else
    if u == 0x0454 then 0xba else if u == 0x0455 then 0xbe else if u == 0x0456 then 0xb3 else
    if u == 0x0457 then 0xbf else if u == 0x0458 then 0xbc else if u == 0x0459 then 0x9a else
    if u == 0x045a then 0x9c else if u == 0x045b then 0x9e else if u == 0x045c then 0x9d else
    if u == 0x045e then 0xa2 else if u == 0x045f then 0x9f else if u == 0x0490 then 0xa5 else
    if u == 0x0491 then 0xb4 else 0
  }

  function Cp1251Sign(u: bv32): bv8 {
    if u == 0x2013 then 0x96 else if u == 0x2014 then 0x97 else if u == 0x2018 then 0x91 else
    if u == 0x2019 then 0x92 else if u == 0x201c then 0x93 else if u == 0x201d then 0x94 else
    if u == 0x201e then 0x84 else if u == 0x2020 then 0x86 else if u == 0x2021 then 0x87 else
    if u == 0x2022 then 0x95 else if u == 0x2026 then 0x85 else if u == 0x2030 then 0x89 else
    if u == 0x2039 then 0x8b else if u == 0x203a then 0x9b else if u == 0x20a1 then 0x82 else
    if u == 0x20ac then 0x88 else if u == 0x2116 then 0xb9 else if u == 0x2122 then 0x99 else 0
  }

  function Cp1251Byte(u: bv32): bv8 {
    if u == 0 then 0x98
    else if u <= 0xBB then (u & 0xFF) as bv8
    else if u < 0x410 then Cp1251Upper(u)
    else if u < 0x450 then ((u - 0x350) & 0xFF) as bv8
    else if u < 0x500 then Cp1251Lower(u)
    else Cp1251Sign(u)
  }

  // ------------------------------------------------------------ koi8-r

  function Koi8rRow8(j: bv4): bv32 {
    if j == 0 then 0x2500 else if j == 1 then 0x2502 else if j == 2 then 0x250c else
    if j == 3 then 0x2510 else if j == 4 then 0x2514 else if j == 5 then 0x2518 else
    if j == 6 then 0x251c else if j == 7 then 0x2524 else if j == 8 then 0x252c else
    if j == 9 then 0x2534 else if j == 10 then 0x253c else if j == 11 then 0x2580 else
    if j == 12 then 0x2584 else if j == 13 then 0x2588 else if j == 14 then 0x258c else 0x2590
  }

  function Koi8rRow9(j: bv4): bv32 {
    if j == 0 then 0x2591 else if j == 1 then 0x2592 else if j == 2 then 0x2593 else
    if j == 3 then 0x2320 else if j == 4 then 0x25a0 else if j == 5 then 0x2219 else
    if j == 6 then 0x221a else if j == 7 then 0x2248 else if j == 8 then 0x2264 else
    if j == 9 then 0x2265 else if j == 10 then 0x00a0 else if j == 11 then 0x2321 else
    if j == 12 then 0x00b0 else if j == 13 then 0x00b2 else if j == 14 then 0x00b7 else 0x00f7
  }

  function Koi8rRowA(j: bv4): bv32 {
    if j == 0 then 0x2550 else if j == 1 then 0x2551 else if j == 2 then 0x2552 else
    if j == 3 then 0x0451 else if j == 4 then 0x2553 else if j == 5 then 0x2554 else
    if j == 6 then 0x2555 else if j == 7 then 0x2556 else if j == 8 then 0x2557 else
    if j == 9 then 0x2558 else if j == 10 then 0x2559 else if j == 11 then 0x255a else
    if j == 12 then 0x255b else if j == 13 then 0x255c else if j == 14 then 0x255d else 0x255e
  }

  function Koi8rRowB(j: bv4): bv32 {
    if j == 0 then 0x255f else if j == 1 then 0x2560 else if j == 2 then 0x2561 else
    if j == 3 then 0x0401 else if j == 4 then 0x2562 else if j == 5 then 0x2563 else
    if j == 6 then 0x2564 else if j == 7 then 0x2565 else if j == 8 then 0x2566 else
    if j == 9 then 0x2567 else if j == 10 then 0x2568 else if j == 11 then 0x2569 else
    if j == 12 then 0x256a else if j == 13 then 0x256b else if j == 14 then 0x256c else 0x00a9
  }

  function Koi8rRowC(j: bv4): bv32 {
    if j == 0 then 0x044e else if j == 1 then 0x0430 else if j == 2 then 0x0431 else
    if j == 3 then 0x0446 else if j == 4 then 0x0434 else if j == 5 then 0x0435 else
    if j == 6 then 0x0444 else if j == 7 then 0x0433 else if j == 8 then 0x0445 else
    if j == 9 then 0x0438 else if j == 10 then 0x0439 else if j == 11 then 0x043a else
    if j == 12 then 0x043b else if j == 13 then 0x043c else if j == 14 then 0x043d else 0x043e
  }

  function Koi8rRowD(j: bv4): bv32 {
    if j == 0 then 0x043f else if j == 1 then 0x044f else if j == 2 then 0x0440 else
    if j == 3 then 0x0441 else if j == 4 then 0x0442 else if j == 5 then 0x0443 else
    if j == 6 then 0x0436 else if j == 7 then 0x0432 else if j == 8 then 0x044c else
    if j == 9 then 0x044b else if j == 10 then 0x0437 else if j == 11 then 0x0448 else
    if j == 12 then 0x044d else if j == 13 then 0x0449 else if j == 14 then 0x0447 else 0x044a
  }

  function Koi8rRowE(j: bv4): bv32 {
    if j == 0 then 0x042e else if j == 1 then 0x0410 else if j == 2 then 0x0411 else
    if j == 3 then 0x0426 else if j == 4 then 0x0414 else if j == 5 then 0x0415 else
    if j == 6 then 0x0424 else if j == 7 then 0x0413 else if j == 8 then 0x0425 else
    if j == 9 then 0x0418 else if j == 10 then 0x0419 else if j == 11 then 0x041a else
    if j == 12 then 0x041b else if j == 13 then 0x041c else if j == 14 then 0x041d else 0x041e
  }

  function Koi8rRowF(j: bv4): bv32 {
    if j == 0 then 0x041f else if j == 1 then 0x042f else if j == 2 then 0x0420 else
    if j == 3 then 0x0421 else if j == 4 then 0x0422 else if j == 5 then 0x0423 else
    if j == 6 then 0x0416 else if j == 7 then 0x0412 else if j == 8 then 0x042c else
    if j == 9 then 0x042b else if j == 10 then 0x0417 else if j == 11 then 0x0428 else
    if j == 12 then 0x042d else if j == 13 then 0x0429 else if j == 14 then 0x0427 else 0x042a
  }

  function Koi8rTable(i: bv8): bv32
    requires i < 0x80
  {
    var h, j := (i >> 4) as bv4, (i & 15) as bv4;
    if h == 0 then Koi8rRow8(j) else if h == 1 then Koi8rRow9(j) else
    if h == 2 then Koi8rRowA(j) else if h == 3 then Koi8rRowB(j) else
    if h == 4 then Koi8rRowC(j) else if h == 5 then Koi8rRowD(j) else
    if h == 6 then Koi8rRowE(j) else Koi8rRowF(j)
  }

  // The inverse; capital letters lie 0x20 points below and 0x20 bytes above small ones.

  function Koi8rBox(u: bv32): bv8 {
    if u == 0x2500 then 0x80 else if u == 0x2502 then 0x81 else if u == 0x250c then 0x82 else
    if u == 0x2510 then 0x83 else if u == 0x2514 then 0x84 else if u == 0x2518 then 0x85 else
    if u == 0x251c then 0x86 else if u == 0x2524 then 0x87 else if u == 0x252c then 0x88 else
    if u == 0x2534 then 0x89 else if u == 0x253c then 0x8a else 0
  }

  function Koi8rSign(u: bv32): bv8 {
    if u == 0x0401 then 0xb3 else if u == 0x0451 then 0xa3 else if u == 0x2219 then 0x95 else
    if u == 0x221a then 0x96 else if u == 0x2248 then 0x97 else if u == 0x2264 then 0x98 else
    if u == 0x2265 then 0x99 else if u == 0x2320 then 0x93 else if u == 0x2321 then 0x9b else
    if u == 0x2580 then 0x8b else if u == 0x2584 then 0x8c else if u == 0x2588 then 0x8d else
    if u == 0x258c then 0x8e else if u == 0x2590 then 0x8f else if u == 0x2591 then 0x90 else
    if u == 0x2592 then 0x91 else if u == 0x2593 then 0x92 else if u == 0x25a0 then 0x94 else 0
  }

  function Koi8rLatin(u: bv32): bv8 {
    if u == 0x00a0 then 0x9a else if u == 0x00a9 then 0xbf else if u == 0x00b0 then 0x9c else
    if u == 0x00b2 then 0x9d else if u == 0x00b7 then 0x9e else if u == 0x00f7 then 0x9f else 0
  }

  function Koi8rLetterA(u: bv32): bv8 {
    if u == 0x0430 then 0xc1 else if u == 0x0431 then 0xc2 else if u == 0x0432 then 0xd7 else
    if u == 0x0433 then 0xc7 else if u == 0x0434 then 0xc4 else if u == 0x0435 then 0xc5 else
    if u == 0x0436 then 0xd6 else if u == 0x0437 then 0xda else if u == 0x0438 then 0xc9 else
    if u == 0x0439 then 0xca else if u == 0x043a then 0xcb else if u == 0x043b then 0xcc else
    if u == 0x043c then 0xcd else if u == 0x043d then 0xce else if u == 0x043e then 0xcf else
    if u == 0x043f then 0xd0 else 0
  }

  function Koi8rLetterP(u: bv32): bv8 {
    if u == 0x0440 then 0xd2 else if u == 0x0441 then 0xd3 else if u == 0x0442 then 0xd4 else
    if u == 0x0443 then 0xd5 else if u == 0x0444 then 0xc6 else if u == 0x0445 then 0xc8 else
    if u == 0x0446 then 0xc3 else if u == 0x0447 then 0xde else if u == 0x0448 then 0xdb else
    if u == 0x0449 then 0xdd else if u == 0x044a then 0xdf else if u == 0x044b then 0xd9 else
    if u == 0x044c then 0xd8 else if u == 0x044d then 0xdc else if u == 0x044e then 0xc0 else
    if u == 0x044f then 0xd1 else 0
  }

  function Koi8rByte(u: bv32): bv8 {
    if u < 0x400 then Koi8rLatin(u)
    else if 0x410 <= u < 0x420 then Koi8rLetterA(u + 0x20) | 0x20
    else if 0x420 <= u < 0x430 then Koi8rLetterP(u + 0x20) | 0x20
    else if 0x430 <= u < 0x440 then Koi8rLetterA(u)
    else if 0x440 <= u < 0x450 then Koi8rLetterP(u)
    else if 0x2500 <= u < 0x2550 then Koi8rBox(u)
    else if 0x2550 <= u <= 0x2552 then ((u - 0x24B0) & 0xFF) as bv8
    else if 0x2553 <= u <= 0x2561 then ((u - 0x24AF) & 0xFF) as bv8
    else if 0x2562 <= u <= 0x256C then ((u - 0x24AE) & 0xFF) as bv8
    else Koi8rSign(u)
  }

  // -------------------------------------------------------- iso-8859-5

  function Iso88595Row8(j: bv4): bv32 {
    if j == 0 then 0x0080 else if j == 1 then 0x0081 else if j == 2 then 0x0082 else
    if j == 3 then 0x0083 else if j == 4 then 0x0084 else if j == 5 then 0x0085 else
    if j == 6 then 0x0086 else if j == 7 then 0x0087 else if j == 8 then 0x0088 else
    if j == 9 then 0x0089 else if j == 10 then 0x008a else if j == 11 then 0x008b else
    if j == 12 then 0x008c else if j == 13 then 0x008d else if j == 14 then 0x008e else 0x008f
  }

  function Iso88595Row9(j: bv4): bv32 {
    if j == 0 then 0x0090 else if j == 1 then 0x0091 else if j == 2 then 0x0092 else
    if j == 3 then 0x0093 else if j == 4 then 0x0094 else if j == 5 then 0x0095 else
    if j == 6 then 0x0096 else if j == 7 then 0x0097 else if j == 8 then 0x0098 else
    if j == 9 then 0x0099 else if j == 10 then 0x009a else if j == 11 then 0x009b else
    if j == 12 then 0x009c else if j == 13 then 0x009d else if j == 14 then 0x009e else 0x009f
  }

  function Iso88595RowA(j: bv4): bv32 {
    if j == 0 then 0x00a0 else if j == 1 then 0x0401 else if j == 2 then 0x0402 else
    if j == 3 then 0x0403 else if j == 4 then 0x0404 else if j == 5 then 0x0405 else
    if j == 6 then 0x0406 else if j == 7 then 0x0407 else if j == 8 then 0x0408 else
    if j == 9 then 0x0409 else if j == 10 then 0x040a else if j == 11 then 0x040b else
    if j == 12 then 0x040c else if j == 13 then 0x00ad else if j == 14 then 0x040e else 0x040f
  }

  function Iso88595RowB(j: bv4): bv32 {
    if j == 0 then 0x0410 else if j == 1 then 0x0411 else if j == 2 then 0x0412 else
    if j == 3 then 0x0413 else if j == 4 then 0x0414 else if j == 5 then 0x0415 else
    if j == 6 then 0x0416 else if j == 7 then 0x0417 else if j == 8 then 0x0418 else
    if j == 9 then 0x0419 else if j == 10 then 0x041a else if j == 11 then 0x041b else
    if j == 12 then 0x041c else if j == 13 then 0x041d else if j == 14 then 0x041e else 0x041f
  }

  function Iso88595RowC(j: bv4): bv32 {
    if j == 0 then 0x0420 else if j == 1 then 0x0421 else if j == 2 then 0x0422 else
    if j == 3 then 0x0423 else if j == 4 then 0x0424 else if j == 5 then 0x0425 else
    if j == 6 then 0x0426 else if j == 7 then 0x0427 else if j == 8 then 0x0428 else
    if j == 9 then 0x0429 else if j == 10 then 0x042a else if j == 11 then 0x042b else
    if j == 12 then 0x042c else if j == 13 then 0x042d else if j == 14 then 0x042e else 0x042f
  }

  function Iso88595RowD(j: bv4): bv32 {
    if j == 0 then 0x0430 else if j == 1 then 0x0431 else if j == 2 then 0x0432 else
    if j == 3 then 0x0433 else if j == 4 then 0x0434 else if j == 5 then 0x0435 else
    if j == 6 then 0x0436 else if j == 7 then 0x0437 else if j == 8 then 0x0438 else
    if j == 9 then 0x0439 else if j == 10 then 0x043a else if j == 11 then 0x043b else
    if j == 12 then 0x043c else if j == 13 then 0x043d else if j == 14 then 0x043e else 0x043f
  }

  function Iso88595RowE(j: bv4): bv32 {
    if j == 0 then 0x0440 else if j == 1 then 0x0441 else if j == 2 then 0x0442 else
    if j == 3 then 0x0443 else if j == 4 then 0x0444 else if j == 5 then 0x0445 else
    if j == 6 then 0x0446 else if j == 7 then 0x0447 else if j == 8 then 0x0448 else
    if j == 9 then 0x0449 else if j == 10 then 0x044a else if j == 11 then 0x044b else
    if j == 12 then 0x044c else if j == 13 then 0x044d else if j == 14 then 0x044e else 0x044f
  }

  function Iso88595RowF(j: bv4): bv32 {
    if j == 0 then 0x2116 else if j == 1 then 0x0451 else if j == 2 then 0x0452 else
    if j == 3 then 0x0453 else if j == 4 then 0x0454 else if j == 5 then 0x0455 else
    if j == 6 then 0x0456 else if j == 7 then 0x0457 else if j == 8 then 0x0458 else
    if j == 9 then 0x0459 else if j == 10 then 0x045a else if j == 11 then 0x045b else
    if j == 12 then 0x045c else if j == 13 then 0x00a7 else if j == 14 then 0x045e else 0x045f
  }

  function Iso88595Table(i: bv8): bv32
    requires i < 0x80
  {
    var h, j := (i >> 4) as bv4, (i & 15) as bv4;
    if h == 0 then Iso88595Row8(j) else if h == 1 then Iso88595Row9(j) else
    if h == 2 then Iso88595RowA(j) else if h == 3 then Iso88595RowB(j) else
    if h == 4 then Iso88595RowC(j) else if h == 5 then Iso88595RowD(j) else
    if h == 6 then Iso88595RowE(j) else Iso88595RowF(j)
  }

  function Iso88595Byte(u: bv32): bv8 {
    if u == 0xA7 then 0xFD
    else if u == 0x2116 then 0xF0
    else if u <= 0xAD then (u & 0xFF) as bv8
    else ((u - 0x360) & 0xFF) as bv8
  }

  lemma Cp1251Row8Back(j: bv4)
    ensures 0x80 <= Cp1251Row8(j) <= 0x2FFF
    ensures Cp1251Byte(Cp1251Row8(j)) == 0x80 | (j as bv8)
  {
  }

  lemma Cp1251Row9Back(j: bv4)
    ensures Cp1251Row9(j) <= 0x2FFF && (Cp1251Row9(j) >= 0x80 || (Cp1251Row9(j) == 0 && j == 8))
    ensures Cp1251Byte(Cp1251Row9(j)) == 0x90 | (j as bv8)
  {
  }

  lemma Cp1251RowABack(j: bv4)
    ensures 0x80 <= Cp1251RowA(j) <= 0x2FFF
    ensures Cp1251Byte(Cp1251RowA(j)) == 0xA0 | (j as bv8)
  {
  }

  lemma Cp1251RowBBack(j: bv4)
    ensures 0x80 <= Cp1251RowB(j) <= 0x2FFF
    ensures Cp1251Byte(Cp1251RowB(j)) == 0xB0 | (j as bv8)
  {
  }

  lemma Cp1251RowCBack(j: bv4)
    ensures 0x80 <= Cp1251RowC(j) <= 0x2FFF
    ensures Cp1251Byte(Cp1251RowC(j)) == 0xC0 | (j as bv8)
  {
  }

  lemma Cp1251RowDBack(j: bv4)
    ensures 0x80 <= Cp1251RowD(j) <= 0x2FFF
    ensures Cp1251Byte(Cp1251RowD(j)) == 0xD0 | (j as bv8)
  {
  }

  lemma Cp1251RowEBack(j: bv4)
    ensures 0x80 <= Cp1251RowE(j) <= 0x2FFF
    ensures Cp1251Byte(Cp1251RowE(j)) == 0xE0 | (j as bv8)
  {
  }

  lemma Cp1251RowFBack(j: bv4)
    ensures 0x80 <= Cp1251RowF(j) <= 0x2FFF
    ensures Cp1251Byte(Cp1251RowF(j)) == 0xF0 | (j as bv8)
  {
  }

  lemma Cp1251TableBack(i: bv8)
    requires i < 0x80
    ensures Sound(Cp1251Table(i)) && Cp1251Byte(Cp1251Table(i)) == 0x80 | i
  {
    hide Cp1251Byte, Cp1251Row8, Cp1251Row9, Cp1251RowA, Cp1251RowB,
         Cp1251RowC, Cp1251RowD, Cp1251RowE, Cp1251RowF;
    var h, j := (i >> 4) as bv4, (i & 15) as bv4;
    if h == 0 {
      Cp1251Row8Back(j);
    } else if h == 1 {
      Cp1251Row9Back(j);
    } else if h == 2 {
      Cp1251RowABack(j);
    } else if h == 3 {
      Cp1251RowBBack(j);
    } else if h == 4 {
      Cp1251RowCBack(j);
    } else if h == 5 {
      Cp1251RowDBack(j);
    } else if h == 6 {
      Cp1251RowEBack(j);
    } else {
      Cp1251RowFBack(j);
    }
  }

  lemma Koi8rRow8Back(j: bv4)
    ensures 0x80 <= Koi8rRow8(j) <= 0x2FFF
    ensures Koi8rByte(Koi8rRow8(j)) == 0x80 | (j as bv8)
  {
    hide Koi8rLetterA, Koi8rLetterP, Koi8rLatin;
  }

  lemma Koi8rRow9Back(j: bv4)
    ensures 0x80 <= Koi8rRow9(j) <= 0x2FFF
    ensures Koi8rByte(Koi8rRow9(j)) == 0x90 | (j as bv8)
  {
    hide Koi8rLetterA, Koi8rLetterP, Koi8rBox;
  }

  lemma Koi8rRowABack(j: bv4)
    ensures 0x80 <= Koi8rRowA(j) <= 0x2FFF
    ensures Koi8rByte(Koi8rRowA(j)) == 0xA0 | (j as bv8)
  {
    hide Koi8rLetterA, Koi8rLetterP, Koi8rLatin, Koi8rBox;
  }

  lemma Koi8rRowBBack(j: bv4)
    ensures 0x80 <= Koi8rRowB(j) <= 0x2FFF
    ensures Koi8rByte(Koi8rRowB(j)) == 0xB0 | (j as bv8)
  {
    hide Koi8rLetterA, Koi8rLetterP, Koi8rBox;
  }

  lemma Koi8rRowCBack(j: bv4)
    ensures 0x80 <= Koi8rRowC(j) <= 0x2FFF
    ensures Koi8rByte(Koi8rRowC(j)) == 0xC0 | (j as bv8)
  {
    hide Koi8rLatin, Koi8rBox, Koi8rSign;
  }

  lemma Koi8rRowDBack(j: bv4)
    ensures 0x80 <= Koi8rRowD(j) <= 0x2FFF
    ensures Koi8rByte(Koi8rRowD(j)) == 0xD0 | (j as bv8)
  {
    hide Koi8rLatin, Koi8rBox, Koi8rSign;
  }

  lemma Koi8rRowEBack(j: bv4)
    ensures 0x80 <= Koi8rRowE(j) <= 0x2FFF
    ensures Koi8rByte(Koi8rRowE(j)) == 0xE0 | (j as bv8)
  {
    hide Koi8rLatin, Koi8rBox, Koi8rSign;
  }

  lemma Koi8rRowFBack(j: bv4)
    ensures 0x80 <= Koi8rRowF(j) <= 0x2FFF
    ensures Koi8rByte(Koi8rRowF(j)) == 0xF0 | (j as bv8)
  {
    hide Koi8rLatin, Koi8rBox, Koi8rSign;
  }

  lemma Koi8rTableBack(i: bv8)
    requires i < 0x80
    ensures Sound(Koi8rTable(i)) && Koi8rByte(Koi8rTable(i)) == 0x80 | i
  {
    hide Koi8rByte, Koi8rRow8, Koi8rRow9, Koi8rRowA, Koi8rRowB,
         Koi8rRowC, Koi8rRowD, Koi8rRowE, Koi8rRowF;
    var h, j := (i >> 4) as bv4, (i & 15) as bv4;
    if h == 0 {
      Koi8rRow8Back(j);
    } else if h == 1 {
      Koi8rRow9Back(j);
    } else if h == 2 {
      Koi8rRowABack(j);
    } else if h == 3 {
      Koi8rRowBBack(j);
    } else if h == 4 {
      Koi8rRowCBack(j);
    } else if h == 5 {
      Koi8rRowDBack(j);
    } else if h == 6 {
      Koi8rRowEBack(j);
    } else {
      Koi8rRowFBack(j);
    }
  }

  lemma Iso88595Row8Back(j: bv4)
    ensures 0x80 <= Iso88595Row8(j) <= 0x2FFF
    ensures Iso88595Byte(Iso88595Row8(j)) == 0x80 | (j as bv8)
  {
  }

  lemma Iso88595Row9Back(j: bv4)
    ensures 0x80 <= Iso88595Row9(j) <= 0x2FFF
    ensures Iso88595Byte(Iso88595Row9(j)) == 0x90 | (j as bv8)
  {
  }

  lemma Iso88595RowABack(j: bv4)
    ensures 0x80 <= Iso88595RowA(j) <= 0x2FFF
    ensures Iso88595Byte(Iso88595RowA(j)) == 0xA0 | (j as bv8)
  {
  }

  lemma Iso88595RowBBack(j: bv4)
    ensures 0x80 <= Iso88595RowB(j) <= 0x2FFF
    ensures Iso88595Byte(Iso88595RowB(j)) == 0xB0 | (j as bv8)
  {
  }

  lemma Iso88595RowCBack(j: bv4)
    ensures 0x80 <= Iso88595RowC(j) <= 0x2FFF
    ensures Iso88595Byte(Iso88595RowC(j)) == 0xC0 | (j as bv8)
  {
  }

  lemma Iso88595RowDBack(j: bv4)
    ensures 0x80 <= Iso88595RowD(j) <= 0x2FFF
    ensures Iso88595Byte(Iso88595RowD(j)) == 0xD0 | (j as bv8)
  {
  }

  lemma Iso88595RowEBack(j: bv4)
    ensures 0x80 <= Iso88595RowE(j) <= 0x2FFF
    ensures Iso88595Byte(Iso88595RowE(j)) == 0xE0 | (j as bv8)
  {
  }

  lemma Iso88595RowFBack(j: bv4)
    ensures 0x80 <= Iso88595RowF(j) <= 0x2FFF
    ensures Iso88595Byte(Iso88595RowF(j)) == 0xF0 | (j as bv8)
  {
  }

  lemma Iso88595TableBack(i: bv8)
    requires i < 0x80
    ensures Sound(Iso88595Table(i)) && Iso88595Byte(Iso88595Table(i)) == 0x80 | i
  {
    hide Iso88595Byte, Iso88595Row8, Iso88595Row9, Iso88595RowA, Iso88595RowB,
         Iso88595RowC, Iso88595RowD, Iso88595RowE, Iso88595RowF;
    var h, j := (i >> 4) as bv4, (i & 15) as bv4;
    if h == 0 {
      Iso88595Row8Back(j);
    } else if h == 1 {
      Iso88595Row9Back(j);
    } else if h == 2 {
      Iso88595RowABack(j);
    } else if h == 3 {
      Iso88595RowBBack(j);
    } else if h == 4 {
      Iso88595RowCBack(j);
    } else if h == 5 {
      Iso88595RowDBack(j);
    } else if h == 6 {
      Iso88595RowEBack(j);
    } else {
      Iso88595RowFBack(j);
    }
  }

  // --------------------------------------------------------- all three

  function Table(cp: Codepage, i: bv8): bv32
    requires i < 0x80
  {
    match cp
    case Cp1251 => Cp1251Table(i)
    case Koi8r => Koi8rTable(i)
    case Iso88595 => Iso88595Table(i)
  }

  /** The high byte with a given point. */
  function HighByte(cp: Codepage, u: bv32): bv8 {
    match cp
    case Cp1251 => Cp1251Byte(u)
    case Koi8r => Koi8rByte(u)
    case Iso88595 => Iso88595Byte(u)
  }

  lemma TableBack(cp: Codepage, i: bv8)
    requires i < 0x80
    ensures Sound(Table(cp, i)) && HighByte(cp, Table(cp, i)) == 0x80 | i
  {
    hide Cp1251Table, Koi8rTable, Iso88595Table, Cp1251Byte, Koi8rByte, Iso88595Byte, Sound;
    match cp
    case Cp1251 => Cp1251TableBack(i);
    case Koi8r => Koi8rTableBack(i);
    case Iso88595 => Iso88595TableBack(i);
  }

  // -------------------------------------------------- the tables as texts

  /** The characters of the high bytes, sixteen to a line; \0 stands where cp1251 has none. */
  function Chart(cp: Codepage): (rows: seq<string>)
    ensures |rows| == 8 && forall h | 0 <= h < 8 :: |rows[h]| == 16
  {
    match cp
    case Cp1251 => [
      "ЂЃ₡ѓ„…†‡€‰Љ‹ЊЌЋЏ",
      "ђ‘’“”•–—\0™љ›њќћџ",
      "\U{00A0}ЎўЈ¤Ґ¦§Ё©Є«¬\U{00AD}®Ї",
      "°±Ііґµ¶·ё№є»јЅѕї",
      "АБВГДЕЖЗИЙКЛМНОП",
      "РСТУФХЦЧШЩЪЫЬЭЮЯ",
      "абвгдежзийклмноп",
      "рстуфхцчшщъыьэюя"
    ]
    case Koi8r => [
      "─│┌┐└┘├┤┬┴┼▀▄█▌▐",
      "░▒▓⌠■∙√≈≤≥\U{00A0}⌡°²·÷",
      "═║╒ё╓╔╕╖╗╘╙╚╛╜╝╞",
      "╟╠╡Ё╢╣╤╥╦╧╨╩╪╫╬©",
      "юабцдефгхийклмно",
      "пярстужвьызшэщчъ",
      "ЮАБЦДЕФГХИЙКЛМНО",
      "ПЯРСТУЖВЬЫЗШЭЩЧЪ"
    ]
    case Iso88595 => [
      "\U{0080}\U{0081}\U{0082}\U{0083}\U{0084}\U{0085}\U{0086}\U{0087}" +
      "\U{0088}\U{0089}\U{008A}\U{008B}\U{008C}\U{008D}\U{008E}\U{008F}",
      "\U{0090}\U{0091}\U{0092}\U{0093}\U{0094}\U{0095}\U{0096}\U{0097}" +
      "\U{0098}\U{0099}\U{009A}\U{009B}\U{009C}\U{009D}\U{009E}\U{009F}",
      "\U{00A0}ЁЂЃЄЅІЇЈЉЊЋЌ\U{00AD}ЎЏ",
      "АБВГДЕЖЗИЙКЛМНОП",
      "РСТУФХЦЧШЩЪЫЬЭЮЯ",
      "абвгдежзийклмноп",
      "рстуфхцчшщъыьэюя",
      "№ёђѓєѕіїјљњћќ§ўџ"
    ]
  }

  /** The character in a line of the chart. */
  function ChartAt(cp: Codepage, h: bv4, j: bv4): char {
    var rows := Chart(cp);
    if h == 0 then rows[0][j as int] else if h == 1 then rows[1][j as int] else
    if h == 2 then rows[2][j as int] else if h == 3 then rows[3][j as int] else
    if h == 4 then rows[4][j as int] else if h == 5 then rows[5][j as int] else
    if h == 6 then rows[6][j as int] else rows[7][j as int]
  }

  lemma Cp1251Row8Text(j: bv4)
    ensures Cp1251Row8(j) as int == Chart(Cp1251)[0][j as int] as int
  {
  }

  lemma Cp1251Row9Text(j: bv4)
    ensures Cp1251Row9(j) as int == Chart(Cp1251)[1][j as int] as int
  {
  }

  lemma Cp1251RowAText(j: bv4)
    ensures Cp1251RowA(j) as int == Chart(Cp1251)[2][j as int] as int
  {
  }

  lemma Cp1251RowBText(j: bv4)
    ensures Cp1251RowB(j) as int == Chart(Cp1251)[3][j as int] as int
  {
  }

  lemma Cp1251RowCText(j: bv4)
    ensures Cp1251RowC(j) as int == Chart(Cp1251)[4][j as int] as int
  {
  }

  lemma Cp1251RowDText(j: bv4)
    ensures Cp1251RowD(j) as int == Chart(Cp1251)[5][j as int] as int
  {
  }

  lemma Cp1251RowEText(j: bv4)
    ensures Cp1251RowE(j) as int == Chart(Cp1251)[6][j as int] as int
  {
  }

  lemma Cp1251RowFText(j: bv4)
    ensures Cp1251RowF(j) as int == Chart(Cp1251)[7][j as int] as int
  {
  }

  lemma Koi8rRow8Text(j: bv4)
    ensures Koi8rRow8(j) as int == Chart(Koi8r)[0][j as int] as int
  {
  }

  lemma Koi8rRow9Text(j: bv4)
    ensures Koi8rRow9(j) as int == Chart(Koi8r)[1][j as int] as int
  {
  }

  lemma Koi8rRowAText(j: bv4)
    ensures Koi8rRowA(j) as int == Chart(Koi8r)[2][j as int] as int
  {
  }

  lemma Koi8rRowBText(j: bv4)
    ensures Koi8rRowB(j) as int == Chart(Koi8r)[3][j as int] as int
  {
  }

  lemma Koi8rRowCText(j: bv4)
    ensures Koi8rRowC(j) as int == Chart(Koi8r)[4][j as int] as int
  {
  }

  lemma Koi8rRowDText(j: bv4)
    ensures Koi8rRowD(j) as int == Chart(Koi8r)[5][j as int] as int
  {
  }

  lemma Koi8rRowEText(j: bv4)
    ensures Koi8rRowE(j) as int == Chart(Koi8r)[6][j as int] as int
  {
  }

  lemma Koi8rRowFText(j: bv4)
    ensures Koi8rRowF(j) as int == Chart(Koi8r)[7][j as int] as int
  {
  }

  lemma Iso88595Row8Text(j: bv4)
    ensures Iso88595Row8(j) as int == Chart(Iso88595)[0][j as int] as int
  {
  }

  lemma Iso88595Row9Text(j: bv4)
    ensures Iso88595Row9(j) as int == Chart(Iso88595)[1][j as int] as int
  {
  }

  lemma Iso88595RowAText(j: bv4)
    ensures Iso88595RowA(j) as int == Chart(Iso88595)[2][j as int] as int
  {
  }

  lemma Iso88595RowBText(j: bv4)
    ensures Iso88595RowB(j) as int == Chart(Iso88595)[3][j as int] as int
  {
  }

  lemma Iso88595RowCText(j: bv4)
    ensures Iso88595RowC(j) as int == Chart(Iso88595)[4][j as int] as int
  {
  }

  lemma Iso88595RowDText(j: bv4)
    ensures Iso88595RowD(j) as int == Chart(Iso88595)[5][j as int] as int
  {
  }

  lemma Iso88595RowEText(j: bv4)
    ensures Iso88595RowE(j) as int == Chart(Iso88595)[6][j as int] as int
  {
  }

  lemma Iso88595RowFText(j: bv4)
    ensures Iso88595RowF(j) as int == Chart(Iso88595)[7][j as int] as int
  {
  }

  lemma Cp1251TableText(i: bv8)
    requires i < 0x80
    ensures Cp1251Table(i) as int == ChartAt(Cp1251, (i >> 4) as bv4, (i & 15) as bv4) as int
  {
    hide Chart, Cp1251Row8, Cp1251Row9, Cp1251RowA, Cp1251RowB,
         Cp1251RowC, Cp1251RowD, Cp1251RowE, Cp1251RowF;
    var h, j := (i >> 4) as bv4, (i & 15) as bv4;
    if h == 0 {
      Cp1251Row8Text(j);
    } else if h == 1 {
      Cp1251Row9Text(j);
    } else if h == 2 {
      Cp1251RowAText(j);
    } else if h == 3 {
      Cp1251RowBText(j);
    } else if h == 4 {
      Cp1251RowCText(j);
    } else if h == 5 {
      Cp1251RowDText(j);
    } else if h == 6 {
      Cp1251RowEText(j);
    } else {
      Cp1251RowFText(j);
    }
  }

  lemma Koi8rTableText(i: bv8)
    requires i < 0x80
    ensures Koi8rTable(i) as int == ChartAt(Koi8r, (i >> 4) as bv4, (i & 15) as bv4) as int
  {
    hide Chart, Koi8rRow8, Koi8rRow9, Koi8rRowA, Koi8rRowB,
         Koi8rRowC, Koi8rRowD, Koi8rRowE, Koi8rRowF;
    var h, j := (i >> 4) as bv4, (i & 15) as bv4;
    if h == 0 {
      Koi8rRow8Text(j);
    } else if h == 1 {
      Koi8rRow9Text(j);
    } else if h == 2 {
      Koi8rRowAText(j);
    } else if h == 3 {
      Koi8rRowBText(j);
    } else if h == 4 {
      Koi8rRowCText(j);
    } else if h == 5 {
      Koi8rRowDText(j);
    } else if h == 6 {
      Koi8rRowEText(j);
    } else {
      Koi8rRowFText(j);
    }
  }

  lemma Iso88595TableText(i: bv8)
    requires i < 0x80
    ensures Iso88595Table(i) as int == ChartAt(Iso88595, (i >> 4) as bv4, (i & 15) as bv4) as int
  {
    hide Chart, Iso88595Row8, Iso88595Row9, Iso88595RowA, Iso88595RowB,
         Iso88595RowC, Iso88595RowD, Iso88595RowE, Iso88595RowF;
    var h, j := (i >> 4) as bv4, (i & 15) as bv4;
    if h == 0 {
      Iso88595Row8Text(j);
    } else if h == 1 {
      Iso88595Row9Text(j);
    } else if h == 2 {
      Iso88595RowAText(j);
    } else if h == 3 {
      Iso88595RowBText(j);
    } else if h == 4 {
      Iso88595RowCText(j);
    } else if h == 5 {
      Iso88595RowDText(j);
    } else if h == 6 {
      Iso88595RowEText(j);
    } else {
      Iso88595RowFText(j);
    }
  }

  /** Every table entry is the character of the chart. */
  lemma TableText(cp: Codepage, i: bv8)
    requires i < 0x80
    ensures Table(cp, i) as int == ChartAt(cp, (i >> 4) as bv4, (i & 15) as bv4) as int
  {
    hide Chart, ChartAt, Cp1251Table, Koi8rTable, Iso88595Table;
    match cp
    case Cp1251 => Cp1251TableText(i);
    case Koi8r => Koi8rTableText(i);
    case Iso88595 => Iso88595TableText(i);
  }
}
