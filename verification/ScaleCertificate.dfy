/** 36^(p-1) = 1 modulo p, by 255 squarings: 36^(2^255) = 36^20 and 2^255 = (p - 1) + 20. */
module ScaleCertificate {
  import opened Arith
  import opened Field

  /** One squaring of a known power. */
  lemma {:induction false} Square(k: nat, y: int, z: int) returns (r: int)
    requires Pow(2, k) >= 0 && y == Power(36, Pow(2, k)) && z == y * y % P
    ensures r == z && Pow(2, k + 1) >= 0 && z == Power(36, Pow(2, k + 1))
  {
    r := z;
    hide Power, Pow;
    PowTop(2, k);
    PowerMul(36, Pow(2, k), Pow(2, k));
  }

  lemma {:induction false} FirstPower()
    ensures Pow(2, 0) >= 0 && Power(36, Pow(2, 0)) == 36
  {
    hide Power, Pow;
    PowTop(2, 0);
    PowerOne(36);
  }

  lemma {:induction false} Squares0()
    ensures Pow(2, 16) >= 0
            && Power(36, Pow(2, 16)) == 0x25748b99c64a574f8ebcdc0faeb0697d7d7e4b37974814d8ad98ba8d92561902
  {
    FirstPower();
    hide Power, Pow;
    var y := 0x24;
    y := Square(0, y, 0x510);
    y := Square(1, y, 0x19a100);
    y := Square(2, y, 0x290d7410000);
    y := Square(3, y, 0x6954fe21e3e8100000000);
    y := Square(4, y, 0x2b56d4af8f7932278c797ebd010000000000000000);
    y := Square(5, y, 0x64588f7cfb7be364804214818a867a0100000000000116ced23980696774f78d);
    y := Square(6, y, 0x23d16f51f9dfed4bd335df35305fd32f5a1ed8e0fe6339e3ff73dba38a806977);
    y := Square(7, y, 0x64c24f0d86e0f332df08674273d593b8b9432c16efb8efcda14a383513312542);
    y := Square(8, y, 0x24aa255a2700b36b47332e8ebb66a9f33bf8fce5019815afe40d2b278987d665);
    y := Square(9, y, 0x5cf9fcde924acbb9f392963c3474b83755c2f4e919ffa10678e549ac24344163);
    y := Square(10, y, 0x69f96176dc8ab7853c353151bb9f34813ced3b1030ec3ca37181e625a0cb1b38);
    y := Square(11, y, 0x798786404eea352d04b15dc3b31d2d5e7b19c80d625502792fb2fc10af248c77);
    y := Square(12, y, 0x670fa9ca89480d8f05682455e0f8d2eab22bc107311fce82b5f5c2e8af1f95cb);
    y := Square(13, y, 0x15d2f0710c8d871e92c67bee9fef0e56fa37518ecc494b911dde2b08ec0fa9af);
    y := Square(14, y, 0x2db25c08f67a087aef2a0ae7125db2a8f450c7df5ec4d2cf97422b671863f7f1);
    y := Square(15, y, 0x25748b99c64a574f8ebcdc0faeb0697d7d7e4b37974814d8ad98ba8d92561902);
  }

  lemma {:induction false} Squares1()
    ensures Pow(2, 32) >= 0
            && Power(36, Pow(2, 32)) == 0x57100d41cf652d07f69a0b34367dce98fbac252da631878657185e5c9f154aa6
  {
    Squares0();
    hide Power, Pow;
    var y := 0x25748b99c64a574f8ebcdc0faeb0697d7d7e4b37974814d8ad98ba8d92561902;
    y := Square(16, y, 0x432427f2b2944cf676e6e8a26ccbbbc678f553579a21b4a4a6221b8015ba671e);
    y := Square(17, y, 0x412f94610c518551d4e7338a928b601792a59984dc3c7603b88758faaae832a);
    y := Square(18, y, 0x4a51ac112509eb4c2ccf9834033d337b060f6ad5ba493cd5143050b1018ffb9e);
    y := Square(19, y, 0x26147c4eec8dbb693e493905dcb910a26d9b056f51bf2c73c0338e27b1737234);
    y := Square(20, y, 0x10cd028eff62e93794ad44261b7f8349a50919a32382538ea4f6d03cfc4a13e8);
    y := Square(21, y, 0x42710136c821c19240eb1d344f773cbcc8e83e5a31c749bd93b1612bd3d64e5);
    y := Square(22, y, 0x2d2e333b8aa608049c4370f32d8f9815b798fb6d82338a25ed3498135eb5e4a0);
    y := Square(23, y, 0x8f11ff5d056856fc00047f8dbb3ed530acfb399b0136058483d585e60baaf08);
    y := Square(24, y, 0x17755594d80adb2f526dcff3dbe6d7a3f035c6b3b22feff9c6b8a548483f3497);
    y := Square(25, y, 0x1059ddc47eada8fd04eac385e6295b10e41c904fd2c06b7aa99ae1f91506e57e);
    y := Square(26, y, 0x6b11ab1d52d42c60498662053adf816d8ab61cf476ef84d7194bc97662126c74);
    y := Square(27, y, 0x530030f7a0d1ea0712cfea7bff606eb7c9b7d19d33d36c529d32dcf68863c736);
    y := Square(28, y, 0x218b14719d632810285c8a655d2dbf8f428c73372b96b090bd368e18d2e4ea59);
    y := Square(29, y, 0x2916f3d6b7daac099e377b93ceeb7915398f1bccb8ac78678a1fe80fd91aa4ce);
    y := Square(30, y, 0x776c012fa901e7e42ad070cb2c0eb684ea56054c70111e215e52663c96c90cf3);
    y := Square(31, y, 0x57100d41cf652d07f69a0b34367dce98fbac252da631878657185e5c9f154aa6);
  }

  lemma {:induction false} Squares2()
    ensures Pow(2, 48) >= 0
            && Power(36, Pow(2, 48)) == 0x5eb27c21db44c63945d899b7f018f5f2524c2de804a48ed5ccee8d8f88dd369b
  {
    Squares1();
    hide Power, Pow;
    var y := 0x57100d41cf652d07f69a0b34367dce98fbac252da631878657185e5c9f154aa6;
    y := Square(32, y, 0x64b3c12f6630233f2e6d689495c2b770b5b3b39896d5baf5e8aec3fe4b095e7);
    y := Square(33, y, 0x4b72659681d819510bdeed9fad1dfcae847215e805e475c2f89680f938003120);
    y := Square(34, y, 0x64786863345c86271af5d4e994c90f1589ea827396d94247486c7c4016530ab9);
    y := Square(35, y, 0x51679690606bfb2e68d8c5ae23e1629b7a8ed66aec78b496e7c5034b5226fb4a);
    y := Square(36, y, 0x12c6f8ff6e724eb501375673cf9f79500e3434b287c54a4ab77971d2aececa6d);
    y := Square(37, y, 0x65574dfce97f507ed6a09877ac534e5db58916eb516b530c415080c8250b52e8);
    y := Square(38, y, 0x454467626ab68600476706e0be4a020981611f6bf54b6b21f9b2e08e764abb6a);
    y := Square(39, y, 0x5c37d6ff462a967bcabd1b01b3591b3e8ac93cf46c0fc880dfe636006cfef767);
    y := Square(40, y, 0x551a1f14d3f4e737832c133ff6a6c03b51e8ab13c4dbbc6ed9f15a4c7b8c5c07);
    y := Square(41, y, 0x361fa5509cb4f2070441c7850b5ec4c67fab53b4f58e9afd656d6d157c354312);
    y := Square(42, y, 0x6c97b6672f56b20d7e4449a70d6cd94f98af3c44d3e28512d6e078d7b5405634);
    y := Square(43, y, 0x7e6248b46933b7a86ae64bed095a974f18fab2f78fc21fe336c767da3b53d426);
    y := Square(44, y, 0x5b5364e2691c067d637f045d17702b779d0c435a7e3209a741e333064c9472d5);
    y := Square(45, y, 0x203897fa7347e6bf7fe4db43672680f622e0801cfbd82cb4fd23ac1767dec845);
    y := Square(46, y, 0x453659ca3d2e1de7b6dc8477a26b8d14c37b4d427911224467fbeb6f2fd3f167);
    y := Square(47, y, 0x5eb27c21db44c63945d899b7f018f5f2524c2de804a48ed5ccee8d8f88dd369b);
  }

  lemma {:induction false} Squares3()
    ensures Pow(2, 64) >= 0
            && Power(36, Pow(2, 64)) == 0x2a4e239895b35d18500c8872bff990f511443e489aa17c2386fd23f22b70a9c9
  {
    Squares2();
    hide Power, Pow;
    var y := 0x5eb27c21db44c63945d899b7f018f5f2524c2de804a48ed5ccee8d8f88dd369b;
    y := Square(48, y, 0x600b31246cb604427e9e2ca85ba221f5a53197de13c3c6607822bb91829ff1f9);
    y := Square(49, y, 0x6b6b7ba695fb899afa7d68e7bc6abda6d16d46a632c44f71154a428d1adb0758);
    y := Square(50, y, 0x586ddaff86892fce27115a865f57c720b7a8bd360e335ab3d90eed7000012f4e);
    y := Square(51, y, 0x781f1fe8dcfceac3624d55ef53b7b0e8915da78376340ea95ba43cc7bc3e3899);
    y := Square(52, y, 0x27a95d4140c7fb0e89f1265cd40ad047f02749a3b11ad78294cf6eab048510a6);
    y := Square(53, y, 0x2372535efdbe373c474c4ec24e33a565ced4f8098d32a9fed2c8b857a6f841c5);
    y := Square(54, y, 0x65b02c314de3e6acbd6f3606edc8f6993f850e6826ba85767575714e6fe0e3e6);
    y := Square(55, y, 0x2d8f227e81c376f4679e9a25d468d8daa32921fcca2e83b5efad1b97cc270bba);
    y := Square(56, y, 0x66e138485d80235e9e59fa55611486d9711b51a9d992b048f4d37d346077d67d);
    y := Square(57, y, 0x7befe1f2738c0bf85bf540dedc9bbc2081d7952e9f0c40b3fbd5f73d9deeb494);
    y := Square(58, y, 0xaaceaa93da3ca978b32adfe335e8421fea5f2525ba7a9fa4d4a15505faa87);
    y := Square(59, y, 0x735f4cf77a82848aeb0a9ba5cbdeb9a11d3a23dc9653906844d888fe0e9edd7d);
    y := Square(60, y, 0x47c334b0e8c95f9e828444464866eb5af9bc842b541d36dcfb3ae370bac3bed3);
    y := Square(61, y, 0x3a69bf07f1f27092582128a61ad90351cc92a27f42bf3cac9bb5f3877f118d5b);
    y := Square(62, y, 0x28f825ab9816767adb538f18010431e150dcd5fc8fa687faaa334e7aa168782b);
    y := Square(63, y, 0x2a4e239895b35d18500c8872bff990f511443e489aa17c2386fd23f22b70a9c9);
  }

  lemma {:induction false} Squares4()
    ensures Pow(2, 80) >= 0
            && Power(36, Pow(2, 80)) == 0x49705873fd45479a6467922faf48cd53b24cca5b6cf6e36601562a14da208d60
  {
    Squares3();
    hide Power, Pow;
    var y := 0x2a4e239895b35d18500c8872bff990f511443e489aa17c2386fd23f22b70a9c9;
    y := Square(64, y, 0x366afb09ce92537f6e5bd3a07ebe0a952ff8fe49b23534504578ddc866cf309e);
    y := Square(65, y, 0x6b1ea398aff6fbeb6da2922cf5be4ea60d7fbd98bca081a398edb1a1cc21da39);
    y := Square(66, y, 0x5d790db4b4a045bf163647e48417e394865540ab8299797eb9b5ce0a18fa395c);
    y := Square(67, y, 0x1d190ab06846ce129493fdac7d9173333e05d23ed7d328509efb4637f44d1939);
    y := Square(68, y, 0x5243a700c25f0fcb811138dbe78f7922f82ff3c040799e79458ef56f501119fd);
    y := Square(69, y, 0x1adbbc3e66dd9e4586c769d6afaa77928f807da1eba46ff42dd1a18e5b995355);
    y := Square(70, y, 0x61bd0324f6fc3c8abce27f7d91facb71bff955c7792de623d1c998db581aba2a);
    y := Square(71, y, 0x1f9100a010a60665fe44d90619505d9a32ab79e4cefcb40e2c78f7227b295ff1);
    y := Square(72, y, 0x2fd4c9ff197b91d133697242b798f330afc3b946a2348373e08f176c47308aa);
    y := Square(73, y, 0xd7f622fa628c27069135f19c9e2ed117073b66a9149fae3d8ae969d636403be);
    y := Square(74, y, 0x4d52264295e8cc3adeed553eadb77285f3146f9c94a2708e6f4e6be835e56197);
    y := Square(75, y, 0x32f31ce2f5b3608103a1c3d89938a885acf2932ec02c342376b8e5083f934903);
    y := Square(76, y, 0x2041bc24d3586523fcf237e8d5abc139b8085732e6941274d791a58e1853145);
    y := Square(77, y, 0x696b533c1cd3212c4b57e91a88fee1b253ddfb04f0615a6bd4a75f169651bac1);
    y := Square(78, y, 0x4168395a5c1aa4021169d3cabac4042006575cde207dd0ce7ba5e6bc94cbb273);
    y := Square(79, y, 0x49705873fd45479a6467922faf48cd53b24cca5b6cf6e36601562a14da208d60);
  }

  lemma {:induction false} Squares5()
    ensures Pow(2, 96) >= 0
            && Power(36, Pow(2, 96)) == 0x3ca232154bbe4c7508e16d31c5264fda5c99a5c5ac423ea4844f87bdf76a752c
  {
    Squares4();
    hide Power, Pow;
    var y := 0x49705873fd45479a6467922faf48cd53b24cca5b6cf6e36601562a14da208d60;
    y := Square(80, y, 0x7004c8f608480956e1eb3c7cf26af950e2847760b63e17679dff5dc3fd503af4);
    y := Square(81, y, 0x6df95ca65bfe58a5cb098d7c7c678c7f9b06aab0008e5b88bd464020f97bd618);
    y := Square(82, y, 0x71bde82b413ecd885c43b780e0b009da9d9effbe085178d2f1309f1ac05b77cc);
    y := Square(83, y, 0xa3825c3d2c56cb475015b53234bbe13f0e27190dd960d9aa97623972990090d);
    y := Square(84, y, 0x3a2238fcd529eef7e7aba1d474b48cfec9d5f6e95a9b919e979572195aa4b14);
    y := Square(85, y, 0x5806397aa1e5fdb07b2b9d17581a4bb374f3d6cf6a22bbd3d3d28bbe165fcbba);
    y := Square(86, y, 0x1b88562691af576011f89a5ee95b069f846f3331cd03dad472781ae2bb4812b7);
    y := Square(87, y, 0x77fdacb8d5a8e54951e581af18acb58d0b58eca9b7c950cba834d12a6b7e33ef);
    y := Square(88, y, 0x2c17ab3714e917d61209b8b16428320b06ec13aa0bbe11a66675eac5b32da86);
    y := Square(89, y, 0x8045f02c1587a15bb6efca14d8e83162ae54a53e5802592fc9d326e37f59863);
    y := Square(90, y, 0x3fe81cdfc7fd101e96a0cf5b113565e6064ea7e1977e4bbe723dc86ffdd8560b);
    y := Square(91, y, 0x4521d35f0f3ab2892434e663aed55e0d5bd118271e11e643b4fb355f6cfc4b88);
    y := Square(92, y, 0x213a62e522904b6473d561419f780fd4af31570117f6bae1a6c219b3b9e9f8f8);
    y := Square(93, y, 0x956cd7ab99ec82e4aec9b486c643418a3b6f476e748ef7e9024364d1625970);
    y := Square(94, y, 0x2b89b561aa0b95e32730413a3b95cab9d09ed774cb70a545eaf535401006c6cb);
    y := Square(95, y, 0x3ca232154bbe4c7508e16d31c5264fda5c99a5c5ac423ea4844f87bdf76a752c);
  }

  lemma {:induction false} Squares6()
    ensures Pow(2, 112) >= 0
            && Power(36, Pow(2, 112)) == 0x23999d0508f4194d5c2cf13a5a649091643be90887970960116c01ff09b06c7c
  {
    Squares5();
    hide Power, Pow;
    var y := 0x3ca232154bbe4c7508e16d31c5264fda5c99a5c5ac423ea4844f87bdf76a752c;
    y := Square(96, y, 0xe571fe91cb93510585f74a381784ee32bd54e9c25c4bbaf5e0377b4ee31b942);
    y := Square(97, y, 0x39ec6e3439ba2e642180fcbd9e3de81f5d165b8a6a0faf13e3dab07bc9aec9e3);
    y := Square(98, y, 0x7391bbacb538c566c1c8b0af076c8aa6f145d2366424146b276dde337b579bca);
    y := Square(99, y, 0x5d6b1d198dc16c4563a058c3c13abcdc518f1b26eb90e2c9f51813af0bb40336);
    y := Square(100, y, 0x1c295767c510f8d96edaf8a3e6977e45bedddc8561096821dcc84eb88d35f18f);
    y := Square(101, y, 0x1373e93cbe584a52abd4dd6f6af5cf173ac1a96af00d83c1ef402f499e45fdac);
    y := Square(102, y, 0x5d0ea448b3d2ef4ed417eb12e67ed096c27048491e6b3782e0fd8ba6565451b1);
    y := Square(103, y, 0x324349d4e1e3853fd178ace66e4f8d3906081051da7acf814c4c25dc7bed8f00);
    y := Square(104, y, 0x30fc0a4cabda08dc012d70019a76f149dd92c92379d2cc50a68b32c9c2d8da8f);
    y := Square(105, y, 0x5f6ecc3474f968f16204cbbd4cd0e24fbbad77f3fd1e7198887ef98fd6b8fd3b);
    y := Square(106, y, 0xb293000a2e639837c1afbb1054e31fd545cb490fff527d1d7659e4a20dfa35c);
    y := Square(107, y, 0x3368c7cfa626c1ffda4d7d936b9a6b13caa4b1a37b62950d91716c173db8448a);
    y := Square(108, y, 0xb12bec3dfe129bcdc277356d6dff54af2d6afef4f07703abdbc01a8256f800);
    y := Square(109, y, 0x311d9e600476e11d2f5f34d49bc053fecba18ef1e3cc572efda02f6f238d030f);
    y := Square(110, y, 0x5e0f46b8210b95c47a75ab03db8f908274ad0c0b1c22d4c9b93035992717e33e);
    y := Square(111, y, 0x23999d0508f4194d5c2cf13a5a649091643be90887970960116c01ff09b06c7c);
  }

  lemma {:induction false} Squares7()
    ensures Pow(2, 128) >= 0
            && Power(36, Pow(2, 128)) == 0x11fcf2234c9dfe5b6ff42054fa2b1475be45fc42c2184d7ec4309927c3a160e3
  {
    Squares6();
    hide Power, Pow;
    var y := 0x23999d0508f4194d5c2cf13a5a649091643be90887970960116c01ff09b06c7c;
    y := Square(112, y, 0x2557f93b1d71b2afe4d93fbe79fd5f8d6c8c378149f47238f8b4ffe0752d6193);
    y := Square(113, y, 0x59700be58193a707ab1b79787678a7dd579aec4718fcb9e5d27cc2d0d17f7fed);
    y := Square(114, y, 0x378b9100fdd6a14609a0f3e86b17dec0a09b9dedd7b79ed086ca9c2ce5e5d5e6);
    y := Square(115, y, 0x545c3c893e11e92236d5e1762713e3dcc202a35a1322b9f2659fd278abd70853);
    y := Square(116, y, 0x647f67c18f359c49cca061e2823363b05f12b002345e1abdc56f082273b15ae5);
    y := Square(117, y, 0x37338f40ec194e51d2f573b037516156eef4901ec9b5b0484c44004e99cea82f);
    y := Square(118, y, 0x3adb938d4c41ba8209e19bdae1cd519d38a44506ac1adb80cc17dad739bbfb1f);
    y := Square(119, y, 0x59bf35f8464213bb4acf379a39cebd395da216fe4d9dd979ddd076a7d4d66e03);
    y := Square(120, y, 0x51105e241aac574feb55b676b96bb0d3e71e4cf957401571834cd3cca939629a);
    y := Square(121, y, 0x22fbd89c713415e2ee55cf2728e8967e40a1f6696709788920d43fb257b23334);
    y := Square(122, y, 0x65f7c8cb8ec3cd557f28c3e12d972991fddf622d98d5c880cf8ce63b93746516);
    y := Square(123, y, 0x4637edc5e291dffb1ce1dbb9e382f600af00b97f8e1307c3f7ed213e68446da4);
    y := Square(124, y, 0x5b88b45bf4f1129c1bb6e0574bdc02e0330f6fba371297e098f7b74d99e5957b);
    y := Square(125, y, 0x48421dc7280e70c786c9a306af01d83385e0a348e67204e791f0bb32f8b20ba6);
    y := Square(126, y, 0x161f386c037bc2232f99565fe161121968703ea15a5c15e83a5e9b23de587fb4);
    y := Square(127, y, 0x11fcf2234c9dfe5b6ff42054fa2b1475be45fc42c2184d7ec4309927c3a160e3);
  }

  lemma {:induction false} Squares8()
    ensures Pow(2, 144) >= 0
            && Power(36, Pow(2, 144)) == 0x5efb67a54065d6e396ddb1085cd696593e372d92e9976a1d9ad4b98297ee07f1
  {
    Squares7();
    hide Power, Pow;
    var y := 0x11fcf2234c9dfe5b6ff42054fa2b1475be45fc42c2184d7ec4309927c3a160e3;
    y := Square(128, y, 0x35113b773e525eb5ad1ca89908a06145b3f9c07ede6d2d63feb9b844d26c8102);
    y := Square(129, y, 0x4654da13ded0c67e6e0e51a76d3a8ee8105cf166da112afe9652652c17b9d061);
    y := Square(130, y, 0xf0988657fe0f8f8181cb0511505b43932408e5e09aa2e251dd36c8a44b31ea6);
    y := Square(131, y, 0x2c20d168b0424f8db3702419585114af9b26fe5ed84a0845f276165155bfbb06);
    y := Square(132, y, 0x5e44df0b92a7c41b6b8d7c78721d68c7cd41b5311cad6ed4c26539e66e218d25);
    y := Square(133, y, 0x6143ee06775e0c8d5f9ff76a597d1534797d74eefbf704f584a37d2379acb35f);
    y := Square(134, y, 0x3c935238a819f06c016f1a831cf686b0bc898d95446e09e8cc996506f67a8bc0);
    y := Square(135, y, 0x6a310f93e52557b470cba1fd1fbb98c9616fafb60bef7f4da5f461e2025bb246);
    y := Square(136, y, 0x1073e6d95dc7bf930c3453ca068578866d631321a84c4548834785d6cad6186b);
    y := Square(137, y, 0x349f0b2c729409f49784eb553000d332d83fd46e9e12891f79769775d885c144);
    y := Square(138, y, 0x1cc2b9b274a9b3c713a15653632c5098d42898072c95601621d9522584ece097);
    y := Square(139, y, 0x54acb376bca9f7111f0107d9b3b75c9f44930b0187e7e9b7d9a0873624143957);
    y := Square(140, y, 0x4ffb046ff529757783a29df18555bde627f3dd5bbcdc29da7cb3c86833866bae);
    y := Square(141, y, 0x77720f35828e99862256af5ea8c5474202d3b7cc67c525c003ffcff9a46ad79a);
    y := Square(142, y, 0x7530e50a178ed5ac950a1d787c730bfb812b2b61034723bc36cdc3f476c892f4);
    y := Square(143, y, 0x5efb67a54065d6e396ddb1085cd696593e372d92e9976a1d9ad4b98297ee07f1);
  }

  lemma {:induction false} Squares9()
    ensures Pow(2, 160) >= 0
            && Power(36, Pow(2, 160)) == 0x16f06464d38497f2bcd362a1b9941bd1b6e6a91082e6e13d721a41d5d6e222b3
  {
    Squares8();
    hide Power, Pow;
    var y := 0x5efb67a54065d6e396ddb1085cd696593e372d92e9976a1d9ad4b98297ee07f1;
    y := Square(144, y, 0x3c88fa3aa536e1eae1c3bb7405bb0ac8f32bc039ccabcbe36754f3dd74525fee);
    y := Square(145, y, 0x7749e0ad06b34045229aca76315ce182b1dd7498c533b4589a95aef0de464949);
    y := Square(146, y, 0x93517e7a4ff01c2972a29f2fe289f3afb20cb3570b1d9fc7c22ba7a2705a13d);
    y := Square(147, y, 0x67bc9b28698717fbc561c99ffa3a643da57f610ff07754622af51568eaefcd77);
    y := Square(148, y, 0x96066373f6881c9db9e54261845151ee249c8ced321ced667e8e96874f8db30);
    y := Square(149, y, 0x4f9f15c1981aefd118ac13153fbaa027adaa23e7fc6afee17f40a724f266870a);
    y := Square(150, y, 0x35580af36dc2a8c39878df37e2e28a76abeb41332275bb1bb2373fceead08861);
    y := Square(151, y, 0x4503f2747e2a3db1c06b0160b902b54e59d4a4ae6bf4a1b5eb72cc3cf47453b0);
    y := Square(152, y, 0x83729e9be911d42dbff3522bf4e46918e36a4a6856b80afcfa60cc048cce7cd);
    y := Square(153, y, 0x649be100f8ad2ea19ed6b01b64d3b95900587d0a82eb1493c031453fe1e1c3a3);
    y := Square(154, y, 0x62a06644a13518293b0a806bb72c8ae44f3ad1a95491ea31883c9bf2c2ee05e8);
    y := Square(155, y, 0x56ae10dbda30cac52ff6afb772a3757307cd5c7859b810ad7731a5d955420f66);
    y := Square(156, y, 0x6b41f2ee514801e92b5ecf56a68611abaf90f1453b8d5c87e1518a4c5bd64ccc);
    y := Square(157, y, 0x5f5ef8f253f09935d2618e5bfd00f25f4b8e650f7ab0e59b16309bab285e60db);
    y := Square(158, y, 0x28519fae80060cc9b7492bbfc726319b8fe3d131cf53f06e8785995333a97b2f);
    y := Square(159, y, 0x16f06464d38497f2bcd362a1b9941bd1b6e6a91082e6e13d721a41d5d6e222b3);
  }

  lemma {:induction false} Squares10()
    ensures Pow(2, 176) >= 0
            && Power(36, Pow(2, 176)) == 0x72347f84e875dffe1d895141d069622d64ed7395b46345879e3c5512ab167fb7
  {
    Squares9();
    hide Power, Pow;
    var y := 0x16f06464d38497f2bcd362a1b9941bd1b6e6a91082e6e13d721a41d5d6e222b3;
    y := Square(160, y, 0x6289ff9aebf266b98d37269ab82d17a5f7fcd3c06789ce6ce5854ac44042e7b0);
    y := Square(161, y, 0x445e1aa8a3ffd480676e7e019316131cc4f3bc9745dbf042f1c758d79387722f);
    y := Square(162, y, 0x680f2e13b92fcf6ef421ebe392c6bfdac1e2f5ac00c02d5a3ab0f63e3f076c6);
    y := Square(163, y, 0x2184ff895e5bb46bc807683cd7fb8c9baa33a5d9356b41c5ecf321060e2cb624);
    y := Square(164, y, 0xc8b5d4f6d9ec74b4da658600aca56d1c8dc8c092d0cea7552d6199e85716be2);
    y := Square(165, y, 0x7e6a4beb4ccaa1626817f1ba8cc314c8e078d44ed07d4c139d3042102cec1529);
    y := Square(166, y, 0x5da0e385d2e709c55d28097b1b03f60e9fca050b3d41b43a4214c61ec8b6de43);
    y := Square(167, y, 0x68ab2f2397bfccd1ffdff89f000238453aca7ee791aeb19c541fa09f4ee0bea9);
    y := Square(168, y, 0x76b6f0cc44dc1cc1308b24adf1ff15e514925c8409c2276faa62cf04718fc927);
    y := Square(169, y, 0x26b899b81fc4db9a4193e325e356ac8ca2452938fd5685df44909ce3bda7ccc8);
    y := Square(170, y, 0x23cee11c834432ba23fd2dc72cf5437596a1156deb71193b9746d17772ad6a7);
    y := Square(171, y, 0x3fb76e6460e6a39e3106ab33d0f4664804a37851ca5539d46be3f10c145b8871);
    y := Square(172, y, 0x6355cea108ef6a4313a0940b94cc0d841ec8e9f76c77b8dbdb67b0b0ec59e170);
    y := Square(173, y, 0x447d16ab06550ad2242cb964652f4e90d1b19e54761258fbdc05f3602c43499c);
    y := Square(174, y, 0x5868ef4fad6a22ebe07acfb8ac510eb67bf1f8d9bb4f38a99ab02c3b8d771fd);
    y := Square(175, y, 0x72347f84e875dffe1d895141d069622d64ed7395b46345879e3c5512ab167fb7);
  }

  lemma {:induction false} Squares11()
    ensures Pow(2, 192) >= 0
            && Power(36, Pow(2, 192)) == 0x38057b2332c83764f567de15c4cf13b3dd7af04f66b9dfc12128561339b0bae7
  {
    Squares10();
    hide Power, Pow;
    var y := 0x72347f84e875dffe1d895141d069622d64ed7395b46345879e3c5512ab167fb7;
    y := Square(176, y, 0x7c832f4411523b37cfdf128dab92b5f9efdf6408a2f074eb5b4205ee1ea89efa);
    y := Square(177, y, 0x4c0e3afebc2b0740f13aaccbfb2a7c3634252700d271026efd99a024c055201f);
    y := Square(178, y, 0x1b2ee28d8aac4a9d8c212f826fcd2faea495495fec221ef8d437479daaac2540);
    y := Square(179, y, 0x638965312132481730c81d4e37a825100044b852bdb4541d89d197f5236b9a89);
    y := Square(180, y, 0x213480a85594fac239fac3888be9ea036a97cc173f48d8d8d66790cc04db44d7);
    y := Square(181, y, 0xd5bbadea300290e9003698ce8065ba736615432e1c5f362a03b93ad6228ec89);
    y := Square(182, y, 0x2220821eae1bad5084074acff451476b833dec54bcb6b3fb3108c8fc0d718f18);
    y := Square(183, y, 0x74b6db72a64148d12afb8af0d78779fd085c2d5fceae7ccbfaa0e078c792f617);
    y := Square(184, y, 0x6d4ad4740d40960185b97a7981c7587d29cd467e81b1162b0074e1131a1793fc);
    y := Square(185, y, 0x64611f5ff8ac23f0f185d811e92e2f4769e5f4da6c2d05537ca60e7ffb754572);
    y := Square(186, y, 0x237c4a8956cd952e0fe6a1eae68c50370cfc5cdf5d3fa1b0e2b40b135dc26e34);
    y := Square(187, y, 0x49d2c1fd1c1c080aac076441f8a604825c400684e8956eb43430dab358dd9ba2);
    y := Square(188, y, 0x396ae1e17626325f2568ff442ff41f50f45e271252e7f704baecdadebac5813d);
    y := Square(189, y, 0x7fb537501cd094e1608e937c97c9418be249f3e6556004c1c57d3d56c76344f);
    y := Square(190, y, 0x1653d186dbc38e796508754ffaeb35687274438dac19e6159563b527973cfb6f);
    y := Square(191, y, 0x38057b2332c83764f567de15c4cf13b3dd7af04f66b9dfc12128561339b0bae7);
  }

  lemma {:induction false} Squares12()
    ensures Pow(2, 208) >= 0
            && Power(36, Pow(2, 208)) == 0x15ddd0f346de43bd27774717336c309705a034fa28c860e5fd6e60e79959a3b9
  {
    Squares11();
    hide Power, Pow;
    var y := 0x38057b2332c83764f567de15c4cf13b3dd7af04f66b9dfc12128561339b0bae7;
    y := Square(192, y, 0x663c8b99553830c4281cfa28f78779fec5ed8916dbf772ef75dec7f99f1f9146);
    y := Square(193, y, 0x52672cf44676286b2d13745a0956633cd3538b506f436b37f0c1b3c55845c578);
    y := Square(194, y, 0x6e6ac319014683562d18bd060a11ae22696ed9996ff04371ad913420e8f425e1);
    y := Square(195, y, 0x1927fb1ea104a160d564cf9636d192c8d76a979fecdba554959dae1adf3f42da);
    y := Square(196, y, 0x16ce80a88c95ce4d9fd98781778cf1585e5da4be150e348e1ebb770e477dad60);
    y := Square(197, y, 0x4ce8650a95520472db7226fc6afde135b731e1556a265068fb03d87572ddca31);
    y := Square(198, y, 0x4ba6590c1d0095f0ea19972455d1c76ebed762c697fdfd1269a648872c4fdac0);
    y := Square(199, y, 0x32bbd3e27149bb6e8107e8acdc0d4a36b85dc97097e888986227cfd8c8b3dbd);
    y := Square(200, y, 0x544b296f46736df018da3332da28aae3c0e30d51360e6ee2a1648047c6637bfa);
    y := Square(201, y, 0x4f0525ec6a3575053316fab6bd5a7c87c22c947393f04a4ee29060e11da81b0e);
    y := Square(202, y, 0x6996e1d1f6e630e1e35c2aad7b68853a4ad60d2c06f52db920285e7e7ccab1cc);
    y := Square(203, y, 0x387f5ee6e561076f3410ccc8d81365dbc149138fa70337a16106570d62ee142a);
    y := Square(204, y, 0x16504816dc0a593b3a07bd113f824312c74ee9d282dd88ba0e0da816aa8dae76);
    y := Square(205, y, 0x7af12662e5b8e68b23c5de9e7f151f9919ba94d77c68d76881ba99e01b394cb1);
    y := Square(206, y, 0x3540e8c25c1ffeec4165c4936f28093a3c86aa717d8862725356c24dc91974e4);
    y := Square(207, y, 0x15ddd0f346de43bd27774717336c309705a034fa28c860e5fd6e60e79959a3b9);
  }

  lemma {:induction false} Squares13()
    ensures Pow(2, 224) >= 0
            && Power(36, Pow(2, 224)) == 0x74037e6af0da1783b9c34eb50ad4a6217b4443b6e5470234023d4dc647125caa
  {
    Squares12();
    hide Power, Pow;
    var y := 0x15ddd0f346de43bd27774717336c309705a034fa28c860e5fd6e60e79959a3b9;
    y := Square(208, y, 0x6f49711ad6c0e913d9adc4514033f86e80ec44f87383daf1d201b696429edb2);
    y := Square(209, y, 0x1877a1774fe392a1dc52bd1049b9a07286ed583e87211306eb732dfdf4d44841);
    y := Square(210, y, 0x4dedf80867e9b1acc705dae02bdc34008709baa226c06d016b37f7f9377a8029);
    y := Square(211, y, 0x2da8432742898f7e70276a3efaed8f659fee57fd2f60dc6032c697722fe9e3df);
    y := Square(212, y, 0x4b05c0c693f869d1973d49c11d404b987e57f734f07ca6d654b90fa08cfa8e49);
    y := Square(213, y, 0x471614593353fbac00c5c7dad5d86db28af84f283317adc1a5914ae48a70f70a);
    y := Square(214, y, 0x15eaf801a4eb3e07ea48c9cbf99f8e28756c4cc56df09f3857b13c3ead381fb7);
    y := Square(215, y, 0x2d3f730dd4e13a941f2581290c469dee0aa86bd04e26ed3f35ad668cc60cd177);
    y := Square(216, y, 0x58550beccbeba2492e675bd13cb365197a42c6b2d721dad5a082092168edda10);
    y := Square(217, y, 0x4d2a414c331dc74a8ce6552c07746feabcec5be7e3722c9a7b98d31239f29d99);
    y := Square(218, y, 0x6b4f05dae90a942b6d22280ca27253d11024552c18ddc716caf283ba2f1e43e0);
    y := Square(219, y, 0xe05c0f189c58244c22de6b20d866651c37737e18d3ad34b80f14652d25ad6f9);
    y := Square(220, y, 0x7dc0ea42157b38f830bbb27e220c551ef73df8f2ec3462428674433f35d96500);
    y := Square(221, y, 0x7a559aafb8c255438ae5870ae3a60c9c73ebf744e5247d12d75f8b79e9686a15);
    y := Square(222, y, 0x20605cbedcca02cdf993468ee88ccc86789fafa7943c677feebe414da169f39a);
    y := Square(223, y, 0x74037e6af0da1783b9c34eb50ad4a6217b4443b6e5470234023d4dc647125caa);
  }

  lemma {:induction false} Squares14()
    ensures Pow(2, 240) >= 0
            && Power(36, Pow(2, 240)) == 0x1040e4d43a7453949739b1ff798af5c6347a06ffc7ca967ac43d765a7b87b5cb
  {
    Squares13();
    hide Power, Pow;
    var y := 0x74037e6af0da1783b9c34eb50ad4a6217b4443b6e5470234023d4dc647125caa;
    y := Square(224, y, 0x7fbe8913868abafc4148d7751419145252f7d16905499dac5a89e1f3008651b0);
    y := Square(225, y, 0x45ffd3c2137ee3f90b691a9bf8a3b1724372c711c3e03d45ad83a613ff0e887d);
    y := Square(226, y, 0x65002258b30a49e3ec447ba9a06851fbc853618928768b517978d8f1275ebb96);
    y := Square(227, y, 0xc3bbe908ed87b9691725deb469b4d3b7a2d69735e1f3ea588dc57e17c3090f);
    y := Square(228, y, 0x463ac27ea4c59401b554676891f313f2e5c9337158e9eb717ef6fd375d1d201a);
    y := Square(229, y, 0x4c2d60fd2ba0725124e4fad602a3a36f5a1e4a4d087cedb3624d75c1bd444146);
    y := Square(230, y, 0x5aa467fe7c1a15c55d2a44c5805b044ff51930ba246d86b736a4e80abd8064d4);
    y := Square(231, y, 0x652fcae4f4f25ce27f5ce9f01bd268aa4615961fab899be9edaafc39ebb177aa);
    y := Square(232, y, 0x2cecad3bb4347d9c4150b648bd8f27d7de23d772310aa09bc32550355b42dda5);
    y := Square(233, y, 0x2762465cc9c01ff0aedd1aaf6360e1d3282a65983fd3e5bd97f3b017bcb2b939);
    y := Square(234, y, 0x31b7b921fb51dce8f3ea4cdaff1e7c5240dc1b49b9f1499040ea5c666b2409d3);
    y := Square(235, y, 0x23ba232e8d965ca4f30f4516d1e6950de768d86008064ab33aa031df99e62e81);
    y := Square(236, y, 0x1807f697f6953b73f92d3f1e3627caa2f48fa32731d230087c7a07b94136c1ea);
    y := Square(237, y, 0x79dda2ad6bf8897f8a638fcc7e6bf66b7cc73a3fb9991415d7103ec020a9b271);
    y := Square(238, y, 0x260e23ffed9aef568271b2593452a7492b896980d1e62a495ef1d3adeb2cb8b7);
    y := Square(239, y, 0x1040e4d43a7453949739b1ff798af5c6347a06ffc7ca967ac43d765a7b87b5cb);
  }

  lemma {:induction false} Squares15()
    ensures Pow(2, 255) >= 0 && Power(36, Pow(2, 255)) == 0xa8b8b452291fe8210000000000
  {
    Squares14();
    hide Power, Pow;
    var y := 0x1040e4d43a7453949739b1ff798af5c6347a06ffc7ca967ac43d765a7b87b5cb;
    y := Square(240, y, 0x647ae504d5e57d1996c7012c2d2e021a140c391bc7ea924c82488fdf8a3017d6);
    y := Square(241, y, 0x7f12e99ef90d254533b6419c95438b9584e0d247e2ebfb14b0f3a60df5f4094);
    y := Square(242, y, 0xf4f0e939a2d9cfab53e938d9017c0433c3a2a133046e070eddff81806a3044a);
    y := Square(243, y, 0xcc462a1e60b59114bf6ab5086c7b9b87789a8d6423818ecaf2d39a1be74932f);
    y := Square(244, y, 0x33b7505899e2c6bee2ee8e26a206dcabe455c9b0ea377fc0cf81b07f6b2b9b8e);
    y := Square(245, y, 0x3e8f6778cf2ee0e9ace654c6d1cf5a6d9c9e80ce49fbd26213251d71a7dc3f03);
    y := Square(246, y, 0x403521b7be118609d2de4507a24262b75e47cc5ee9be8f01caade1e3795cd076);
    y := Square(247, y, 0x761072d7694c90d6425c81b1632e8e67601b7dc75aa21558fb924a8ce80afb75);
    y := Square(248, y, 0x35614452ed3195c38ccb00de48b6707090d21f819a98295eb82001b4ef15029d);
    y := Square(249, y, 0x5192d9e75e2ce251ae20744ed3ba2b590417619cd9ff1b0c121c4fb83fb55d79);
    y := Square(250, y, 0x7451876aa6bb78b05e76304bae9dae8a7694e623be5a28072d497ecb4d3d8608);
    y := Square(251, y, 0x2f74b976a0d6f34342f22ebac1b6763b95f9cacc8ebbd45dc078c9697c51a629);
    y := Square(252, y, 0x7ffffffffffffffffffffffffffffffffffffffffffffffffffffffffc655bed);
    y := Square(253, y, 0xcfd41b9100000);
    y := Square(254, y, 0xa8b8b452291fe8210000000000);
  }

  lemma {:induction false} ThirtySixToTheTwenty()
    ensures Power(36, 20) == 0xa8b8b452291fe8210000000000
  {
    hide Power;
    PowerOne(36);
    PowerMul(36, 1, 1);
    PowerMul(36, 2, 2);
    PowerMul(36, 4, 4);
    PowerMul(36, 8, 8);
    PowerMul(36, 16, 4);
  }

  lemma {:induction false} FermatFor36()
    ensures Power(36, P - 1) == 1
  {
    hide Power, Pow, Rep;
    Squares15();
    TwoTo255();
    ThirtySixToTheTwenty();
    var k, c, y := Power(36, 20), 0x2c1760f6ebbc3cdf577cb11544fcd5f8b1bb488e6e88aaab93e4197053265d25, Power(36, P - 1);
    PowerMul(36, P - 1, 20);
    PowerRange(36, P - 1);
    assert Mul(k, c) == 1 by { InverseOfTwenty(k, c); }
    CancelScale(y, k, c);
  }

  lemma {:induction false} InverseOfTwenty(k: int, c: int)
    requires k == 0xa8b8b452291fe8210000000000
             && c == 0x2c1760f6ebbc3cdf577cb11544fcd5f8b1bb488e6e88aaab93e4197053265d25
    ensures Mul(k, c) == 1
  {
  }
}
